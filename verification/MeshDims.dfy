/** `ParallelDims`: all device meshes are factorisations of one world, and they agree. */
module MeshDims {
  import opened Arithmetic
  import opened Wrappers

  // ----- degrees -----

  /** The degrees; `dpShard` may be -1, to be worked out from the world size. */
  datatype Dims = Dims(dpReplicate: int, dpShard: int, cp: int, tp: int, pp: int, ep: int, world: nat)

  datatype Error = DegreeTooSmall | BadDpShard | ProductMismatch

  function Others(d: Dims): int {
    d.dpReplicate * d.cp * d.tp * d.pp
  }

  /** `_validate`: checks the degrees and fills in a missing `dp_shard`. */
  function Validated(d: Dims): Result<Dims, Error> {
    if d.dpReplicate < 1 || d.cp < 1 || d.tp < 1 || d.pp < 1 || d.ep < 1 then Err(DegreeTooSmall)
    else if d.dpShard != -1 && d.dpShard < 1 then Err(BadDpShard)
    else
      FourPositive([d.dpReplicate, d.cp, d.tp, d.pp]);
      var shard := if d.dpShard < 0 then d.world / Others(d) else d.dpShard;
      if shard < 1 then Err(BadDpShard)
      else if d.dpReplicate * shard * d.cp * d.tp * d.pp != d.world then Err(ProductMismatch)
      else Ok(d.(dpShard := shard))
  }

  lemma FourPositive(s: seq<int>)
    requires |s| == 4 && forall x | x in s :: x >= 1
    ensures s[0] * s[1] * s[2] * s[3] >= 1
  {
    assert s[0] in s && s[1] in s && s[2] in s && s[3] in s;
    AtLeast(s[0], s[1]);
    AtLeast(s[0] * s[1], s[2]);
    AtLeast(s[0] * s[1] * s[2], s[3]);
  }

  lemma AtLeast(a: int, b: int)
    requires a >= 1 && b >= 1
    ensures a * b >= a && a * b >= b
  {
    MulGrows(a, 1, b);
    MulGrows(b, 1, a);
  }

  lemma Regroup(a: int, b: int, c: int, d: int, e: int)
    ensures a * b * c * d * e == b * (a * c * d * e)
  {
    assert a * b == b * a;
    assert b * a * c == b * (a * c);
    assert b * (a * c) * d == b * (a * c * d);
    assert b * (a * c * d) * e == b * (a * c * d * e);
  }

  /** A missing `dp_shard` is accepted exactly when the other degrees divide the world, and is
      then the quotient; a given one exactly when the product is the world. */
  lemma ValidateIff(d: Dims)
    requires d.dpReplicate >= 1 && d.cp >= 1 && d.tp >= 1 && d.pp >= 1 && d.ep >= 1
    ensures Others(d) >= 1
    ensures d.dpShard == -1 ==> (Validated(d).Ok? <==> d.world > 0 && d.world % Others(d) == 0)
    ensures d.dpShard >= 1 ==> (Validated(d).Ok? <==> d.dpShard * Others(d) == d.world)
    ensures Validated(d).Ok? ==> Validated(d).value.dpShard * Others(d) == d.world
  {
    FourPositive([d.dpReplicate, d.cp, d.tp, d.pp]);
    var n := Others(d);
    var q := d.world / n;
    Regroup(d.dpReplicate, q, d.cp, d.tp, d.pp);
    Regroup(d.dpReplicate, d.dpShard, d.cp, d.tp, d.pp);
    assert d.world == n * q + d.world % n;
    assert q * n == n * q;
    DigitsOf(d.world, n);
  }

  /** The `ParallelDims` object, which checks and completes itself when it is built. */
  class ParallelDims {
    const dpReplicate: int
    const cp: int
    const tp: int
    const pp: int
    const ep: int
    const world: nat
    var dpShard: int

    ghost function View(): Dims
      reads this
    {
      Dims(dpReplicate, dpShard, cp, tp, pp, ep, world)
    }

    constructor (d: Dims)
      ensures View() == d
    {
      dpReplicate, dpShard, cp, tp, pp, ep, world := d.dpReplicate, d.dpShard, d.cp, d.tp, d.pp, d.ep, d.world;
    }

    /** `_validate`, assertion by assertion: a missing `dp_shard` is filled in before the last
        two are made, and stays filled in when they fail. */
    method Validate() returns (e: Option<Error>)
      modifies this`dpShard
      ensures e == None <==> Validated(old(View())).Ok?
      ensures e == None ==> View() == Validated(old(View())).value && Whole(View())
      ensures e != None ==> Validated(old(View())) == Err(e.value)
      ensures e != None && old(dpShard) != -1 ==> dpShard == old(dpShard)
    {
      if dpReplicate < 1 || cp < 1 || tp < 1 || pp < 1 || ep < 1 {
        return Some(DegreeTooSmall);
      }
      if dpShard != -1 && dpShard < 1 {
        return Some(BadDpShard);
      }
      ValidateIff(View());
      if dpShard < 0 {
        dpShard := world / (dpReplicate * cp * tp * pp);
      }
      if dpShard < 1 {
        return Some(BadDpShard);
      }
      if dpReplicate * dpShard * cp * tp * pp != world {
        return Some(ProductMismatch);
      }
      return None;
    }
  }

  /** The degrees multiply to the world size. */
  predicate Whole(d: Dims) {
    d.dpShard >= 1 && d.dpReplicate * d.dpShard * d.cp * d.tp * d.pp == d.world
  }

  // ----- mixed radix -----

  function Product(ds: seq<nat>): nat {
    if ds == [] then 1 else ds[0] * Product(ds[1..])
  }

  ghost predicate Positive(ds: seq<nat>) {
    forall i | 0 <= i < |ds| :: ds[i] > 0
  }

  lemma {:induction false} ProductPositive(ds: seq<nat>)
    requires Positive(ds)
    ensures Product(ds) > 0
  {
    if ds != [] {
      ProductPositive(ds[1..]);
      MulGrows(ds[0], 1, Product(ds[1..]));
    }
  }

  function Digit(r: nat, m: nat): nat
    requires m > 0
  {
    r / m
  }

  function Rest(r: nat, m: nat): nat
    requires m > 0
  {
    r % m
  }

  /** A rank's coordinates in the world unflattened to these degrees, row-major. */
  function Coords(r: nat, ds: seq<nat>): (c: seq<nat>)
    requires Positive(ds)
    ensures |c| == |ds|
  {
    if ds == [] then []
    else
      ProductPositive(ds[1..]);
      [Digit(r, Product(ds[1..]))] + Coords(Rest(r, Product(ds[1..])), ds[1..])
  }

  function RankOf(c: seq<nat>, ds: seq<nat>): nat
    requires |c| == |ds|
  {
    if ds == [] then 0 else c[0] * Product(ds[1..]) + RankOf(c[1..], ds[1..])
  }

  ghost predicate InBounds(c: seq<nat>, ds: seq<nat>) {
    |c| == |ds| && forall i | 0 <= i < |ds| :: c[i] < ds[i]
  }

  lemma QuotientBelow(r: nat, d: nat, m: nat)
    requires m > 0 && r < d * m
    ensures r / m < d
  {
    assert r == m * (r / m) + r % m;
    if r / m >= d {
      MulGrows(m, d, r / m);
    }
  }

  /** Every rank has coordinates, which lead back to it. */
  lemma {:induction false} CoordsRank(r: nat, ds: seq<nat>)
    requires Positive(ds) && r < Product(ds)
    ensures InBounds(Coords(r, ds), ds) && RankOf(Coords(r, ds), ds) == r
  {
    if ds != [] {
      var m := Product(ds[1..]);
      ProductPositive(ds[1..]);
      DigitsOf(r, m);
      CoordsRank(r % m, ds[1..]);
      QuotientBelow(r, ds[0], m);
      var q, rest := r / m, Coords(r % m, ds[1..]);
      assert Coords(r, ds) == [q] + rest;
      assert ([q] + rest)[0] == q && ([q] + rest)[1..] == rest;
      assert q * m == m * q;
    }
  }

  /** Every coordinate tuple has a rank, whose coordinates it is. */
  lemma {:induction false} RankCoords(c: seq<nat>, ds: seq<nat>)
    requires Positive(ds) && InBounds(c, ds)
    ensures RankOf(c, ds) < Product(ds) && Coords(RankOf(c, ds), ds) == c
  {
    if ds != [] {
      var m := Product(ds[1..]);
      RankCoords(c[1..], ds[1..]);
      var rest := RankOf(c[1..], ds[1..]);
      MulStep(m, c[0]);
      MulGrows(m, c[0] + 1, ds[0]);
      DivUnique(c[0] * m + rest, m, c[0], rest);
      assert c == [c[0]] + c[1..];
    }
  }

  // ----- agreement of factorisations -----

  lemma {:induction false} ProductJoin(a: seq<nat>, b: seq<nat>)
    ensures Product(a + b) == Product(a) * Product(b)
  {
    if a == [] {
      assert a + b == b;
    } else {
      assert (a + b)[0] == a[0] && (a + b)[1..] == a[1..] + b;
      ProductJoin(a[1..], b);
      assert a[0] * (Product(a[1..]) * Product(b)) == a[0] * Product(a[1..]) * Product(b);
    }
  }

  lemma CoordsCons(r: nat, d: nat, ds: seq<nat>)
    requires d > 0 && Positive(ds)
    ensures Positive([d] + ds) && Product(ds) > 0
    ensures Coords(r, [d] + ds) == [r / Product(ds)] + Coords(r % Product(ds), ds)
  {
    ProductPositive(ds);
    assert ([d] + ds)[1..] == ds;
  }

  /** A rank's coordinates along leading axes and along the rest. */
  lemma {:induction false} CoordsJoin(r: nat, a: seq<nat>, b: seq<nat>)
    requires Positive(a) && Positive(b) && r < Product(a + b)
    ensures Positive(a + b) && Product(b) > 0
    ensures Coords(r, a + b) == Coords(r / Product(b), a) + Coords(r % Product(b), b)
    decreases |a|
  {
    ProductPositive(b);
    if a == [] {
      assert a + b == b;
      DivUnique(r, Product(b), 0, r);
    } else {
      var d, rest := a[0], a[1..];
      assert a == [d] + rest && a + b == [d] + (rest + b);
      var q, s := JoinDigits(r, rest, b);
      CoordsCons(r, d, rest + b);
      CoordsCons(q, d, rest);
      CoordsJoin(s, rest, b);
      JoinStep(r, Product(rest), Product(b), Product(rest + b), rest, b);
    }
  }

  lemma JoinDigits(r: nat, a: seq<nat>, b: seq<nat>) returns (q: nat, s: nat)
    requires Positive(a) && Positive(b)
    ensures var m, n, mn := Product(a), Product(b), Product(a + b);
      && m > 0 && n > 0 && mn > 0 && q == r / n && s == r % mn && s < mn
      && r / mn == q / m && s / n == q % m && s % n == r % n
  {
    ProductPositive(a);
    ProductPositive(b);
    ProductJoin(a, b);
    MulSwap(Product(a), Product(b));
    DivDiv(r, Product(a), Product(b));
    q, s := r / Product(b), r % Product(a + b);
  }

  lemma MulSwap(m: nat, n: nat)
    ensures m * n == n * m
  {
  }

  /** The induction step, digits only. */
  lemma JoinStep(r: nat, m: nat, n: nat, mn: nat, rest: seq<nat>, b: seq<nat>)
    requires Positive(rest) && Positive(b) && m > 0 && n > 0 && mn > 0
    requires r / mn == (r / n) / m && (r % mn) / n == (r / n) % m && (r % mn) % n == r % n
    ensures [r / mn] + (Coords((r % mn) / n, rest) + Coords((r % mn) % n, b))
      == ([(r / n) / m] + Coords((r / n) % m, rest)) + Coords(r % n, b)
  {
    var x, y := Coords((r % mn) / n, rest), Coords((r % mn) % n, b);
    assert [r / mn] + (x + y) == ([r / mn] + x) + y;
  }

  /** Folding two neighbouring axes into one: the folded coordinate is a * |b| + b, and all
      other coordinates are the same. */
  lemma FoldedAxis(r: nat, before: seq<nat>, a: nat, b: nat, after: seq<nat>)
    requires Positive(before) && a > 0 && b > 0 && Positive(after) && r < Product(before + ([a, b] + after))
    ensures Positive(before + ([a, b] + after)) && Positive(before + ([a * b] + after))
    ensures var k := |before|;
      var x, y := Coords(r, before + ([a, b] + after)), Coords(r, before + ([a * b] + after));
      && x[..k] == y[..k] && x[k + 2..] == y[k + 1..]
      && y[k] == x[k] * b + x[k + 1]
  {
    Arithmetic.PositiveProduct(a, b);
    var two, one := [a, b] + after, [a * b] + after;
    assert Product(two) == Product(one) by {
      TwoAxes(0, a, b);
      OneAxis(0, a * b);
      ProductJoin([a, b], after);
      ProductJoin([a * b], after);
    }
    assert Product(before + two) == Product(before + one) by {
      ProductJoin(before, two);
      ProductJoin(before, one);
    }
    CoordsJoin(r, before, two);
    CoordsJoin(r, before, one);
    DigitsOf(r, Product(two));
    FoldedFront(r % Product(two), a, b, after);
  }

  lemma FrontDigits(q: nat, b: nat, rest: seq<nat>)
    requires b > 0
    ensures var x, y: seq<nat> := [q / b, q % b] + rest, [q] + rest;
      x[2..] == y[1..] && y[0] == x[0] * b + x[1]
  {
    DigitsOf(q, b);
  }

  lemma FoldedFront(s: nat, a: nat, b: nat, after: seq<nat>)
    requires a > 0 && b > 0 && Positive(after) && a * b > 0 && s < Product([a, b] + after)
    ensures Positive([a, b] + after) && Positive([a * b] + after)
    ensures var x, y := Coords(s, [a, b] + after), Coords(s, [a * b] + after);
      x[2..] == y[1..] && y[0] == x[0] * b + x[1]
  {
    ProductPositive(after);
    var n := Product(after);
    TwoAxes(s / n, a, b);
    OneAxis(s / n, a * b);
    ProductJoin([a, b], after);
    ProductJoin([a * b], after);
    CoordsJoin(s, [a, b], after);
    CoordsJoin(s, [a * b], after);
    var q, rest := s / n, Coords(s % n, after);
    DigitsOf(q, b);
    assert Coords(s, [a, b] + after) == [q / b, q % b] + rest;
    assert Coords(s, [a * b] + after) == [q] + rest;
    FrontDigits(q, b, rest);
  }

  lemma OneAxis(s: nat, c: nat)
    requires c > 0
    ensures Product([c]) == c && Coords(s, [c]) == [s]
  {
    assert [c][1..] == [];
  }

  lemma TwoAxes(s: nat, a: nat, b: nat)
    requires a > 0 && b > 0
    ensures Product([a, b]) == a * b && Coords(s, [a, b]) == [s / b, s % b]
  {
    assert [a, b][1..] == [b];
    OneAxis(s % b, b);
  }

  // ----- the meshes of one world -----

  ghost predicate Valid(d: Dims) {
    && d.dpReplicate >= 1 && d.dpShard >= 1 && d.cp >= 1 && d.tp >= 1 && d.pp >= 1 && d.ep >= 1
    && Product(FullDense(d)) == d.world
  }

  /** ("pp", "dp_replicate", "dp_shard", "cp", "tp") */
  function FullDense(d: Dims): seq<nat>
    requires d.dpReplicate >= 1 && d.dpShard >= 1 && d.cp >= 1 && d.tp >= 1 && d.pp >= 1
  {
    [d.pp, d.dpReplicate, d.dpShard, d.cp, d.tp]
  }

  /** ("pp", "batch", "cp", "tp"), also ("pp", "dp", "cp", "tp") */
  function DataLoading(d: Dims): seq<nat>
    requires Valid(d)
  {
    Arithmetic.PositiveProduct(d.dpReplicate, d.dpShard);
    [d.pp, d.dpReplicate * d.dpShard, d.cp, d.tp]
  }

  /** ("pp", "dp_replicate", "fsdp", "tp") */
  function FoldedDense(d: Dims): seq<nat>
    requires Valid(d)
  {
    Arithmetic.PositiveProduct(d.dpShard, d.cp);
    [d.pp, d.dpReplicate, d.dpShard * d.cp, d.tp]
  }

  function Inner(d: Dims): nat
    requires Valid(d)
  {
    Arithmetic.PositiveProduct(d.dpShard, d.cp);
    Arithmetic.PositiveProduct(d.dpShard * d.cp, d.tp);
    d.dpShard * d.cp * d.tp
  }

  /** ("pp", "dp_replicate", "efsdp", "ep") */
  function Sparse(d: Dims): seq<nat>
    requires Valid(d)
  {
    [d.pp, d.dpReplicate, Inner(d) / d.ep, d.ep]
  }

  /** A validated configuration is valid. */
  lemma ValidatedIsValid(d: Dims)
    requires Validated(d).Ok?
    ensures Valid(Validated(d).value)
  {
    ValidateIff(d);
    var v := Validated(d).value;
    FiveProduct(v.pp, v.dpReplicate, v.dpShard, v.cp, v.tp);
    Reorder(v.dpReplicate, v.dpShard, v.cp, v.tp, v.pp);
  }

  lemma FiveProduct(a: nat, b: nat, c: nat, d: nat, e: nat)
    ensures Product([a, b, c, d, e]) == a * (b * (c * (d * e)))
  {
    assert [a, b, c, d, e][1..] == [b, c, d, e] && [b, c, d, e][1..] == [c, d, e] && [c, d, e][1..] == [d, e];
    assert [d, e][1..] == [e] && [e][1..] == [];
    assert Product([e]) == e * 1 == e;
    assert Product([d, e]) == d * e;
    assert Product([c, d, e]) == c * (d * e);
    assert Product([b, c, d, e]) == b * (c * (d * e));
  }

  lemma Reorder(b: nat, c: nat, d: nat, e: nat, a: nat)
    ensures b * c * d * e * a == a * (b * (c * (d * e)))
  {
    assert b * c * d * e == b * (c * (d * e)) by {
      assert b * c * d == b * (c * d);
      assert b * (c * d) * e == b * (c * d * e);
      assert c * d * e == c * (d * e);
    }
    MulSwap(b * (c * (d * e)), a);
  }

  /** Batch, fsdp and loss coordinates in terms of the full dense mesh: batch folds
      dp_replicate and dp_shard, fsdp folds dp_shard and cp, loss folds batch and cp; all
      other coordinates agree. */
  lemma MeshesAgree(d: Dims, r: nat)
    requires Valid(d) && r < d.world
    ensures var x, y, z := Coords(r, FullDense(d)), Coords(r, DataLoading(d)), Coords(r, FoldedDense(d));
      && y == [x[0], x[1] * d.dpShard + x[2], x[3], x[4]]
      && z == [x[0], x[1], x[2] * d.cp + x[3], x[4]]
      && y[1] * d.cp + y[2] == x[1] * (d.dpShard * d.cp) + z[2]
  {
    Arithmetic.PositiveProduct(d.dpReplicate, d.dpShard);
    Arithmetic.PositiveProduct(d.dpShard, d.cp);
    var full := FullDense(d);
    assert full == [d.pp] + ([d.dpReplicate, d.dpShard] + [d.cp, d.tp]);
    assert full == [d.pp, d.dpReplicate] + ([d.dpShard, d.cp] + [d.tp]);
    assert DataLoading(d) == [d.pp] + ([d.dpReplicate * d.dpShard] + [d.cp, d.tp]);
    assert FoldedDense(d) == [d.pp, d.dpReplicate] + ([d.dpShard * d.cp] + [d.tp]);
    var x, y, z := Coords(r, full), Coords(r, DataLoading(d)), Coords(r, FoldedDense(d));
    FoldedAxis(r, [d.pp], d.dpReplicate, d.dpShard, [d.cp, d.tp]);
    assert x[..1][0] == y[..1][0] && x[3..][0] == y[2..][0] && x[3..][1] == y[2..][1];
    FoldedAxis(r, [d.pp, d.dpReplicate], d.dpShard, d.cp, [d.tp]);
    assert x[..2][0] == z[..2][0] && x[..2][1] == z[..2][1] && x[4..][0] == z[3..][0];
    LossDigits(x[1], d.dpShard, d.cp, x[2], x[3]);
  }

  lemma LossDigits(a: nat, s: nat, c: nat, u: nat, v: nat)
    ensures (a * s + u) * c + v == a * (s * c) + (u * c + v)
  {
    assert (a * s + u) * c == a * s * c + u * c;
    MulShift(a, s, c);
  }

  lemma FrontOnly(r: nat, a: nat, b: nat, rest: seq<nat>)
    requires a > 0 && b > 0 && Positive(rest) && r < Product([a, b] + rest)
    ensures Positive([a, b] + rest) && Product(rest) > 0
    ensures Coords(r, [a, b] + rest)[..2] == Coords(r / Product(rest), [a, b])
  {
    CoordsJoin(r, [a, b], rest);
  }

  lemma DenseInner(d: Dims)
    requires Valid(d)
    ensures Product([d.dpShard, d.cp, d.tp]) == Inner(d)
  {
    assert [d.dpShard, d.cp, d.tp][1..] == [d.cp, d.tp];
    TwoAxes(0, d.cp, d.tp);
    MulShift(d.dpShard, d.cp, d.tp);
  }

  lemma PairProduct(a: nat, b: nat)
    ensures Product([a, b]) == a * b
  {
    assert [a, b][1..] == [b] && [b][1..] == [];
    assert Product([b]) == b * 1 == b;
  }

  /** n // e * e is n exactly when e divides n, and less otherwise. */
  lemma WholeQuotient(n: nat, e: nat)
    requires e > 0
    ensures Product([n / e, e]) == n - n % e
  {
    PairProduct(n / e, e);
    DigitsOf(n, e);
    MulSwap(n / e, e);
  }

  /** The sparse mesh regroups the same ranks: for fixed pp and dp_replicate its (efsdp, ep)
      block holds exactly the ranks of the dense (dp_shard, cp, tp) block. */
  lemma SparseBlocks(d: Dims, r: nat)
    requires Valid(d) && Inner(d) % d.ep == 0 && r < d.world
    ensures Positive(Sparse(d)) && Product(Sparse(d)) == d.world
    ensures Coords(r, Sparse(d))[..2] == Coords(r, FullDense(d))[..2]
  {
    DenseInner(d);
    WholeQuotient(Inner(d), d.ep);
    var x, y := [d.dpShard, d.cp, d.tp], [Inner(d) / d.ep, d.ep];
    QuotientPositive(Inner(d), d.ep);
    assert FullDense(d) == [d.pp, d.dpReplicate] + x && Sparse(d) == [d.pp, d.dpReplicate] + y;
    ProductJoin([d.pp, d.dpReplicate], x);
    ProductJoin([d.pp, d.dpReplicate], y);
    FrontOnly(r, d.pp, d.dpReplicate, x);
    FrontOnly(r, d.pp, d.dpReplicate, y);
  }

  lemma QuotientPositive(n: nat, e: nat)
    requires n > 0 && e > 0 && n % e == 0
    ensures n / e > 0
  {
    DigitsOf(n, e);
  }

  /** Without divisibility the sparse mesh does not fill the world. */
  lemma SparseNeedsDivisor(d: Dims)
    requires Valid(d) && Inner(d) % d.ep != 0
    ensures Product(Sparse(d)) != d.world
  {
    var front, x, y := [d.pp, d.dpReplicate], [d.dpShard, d.cp, d.tp], [Inner(d) / d.ep, d.ep];
    assert FullDense(d) == front + x && Sparse(d) == front + y;
    ProductJoin(front, x);
    ProductJoin(front, y);
    DenseInner(d);
    WholeQuotient(Inner(d), d.ep);
    ProductPositive(front);
    SmallerProduct(Product(front), Product(y), Product(x));
  }

  /** Two devices, sharded, with an expert degree of 4: accepted, and the sparse mesh is empty. */
  lemma SparseExample()
    ensures var d := Dims(1, 2, 1, 1, 1, 4, 2); Validated(d) == Ok(d) && Valid(d) && Product(Sparse(d)) == 0
  {
    var d := Dims(1, 2, 1, 1, 1, 4, 2);
    assert Product([1]) == 1 && Product([1, 1]) == 1;
    ValidatedIsValid(d);
    var y: seq<nat> := [0, 4];
    assert Sparse(d) == [1, 1] + y && y[0] == 0;
    assert Product(y) == 0;
    ProductJoin([1, 1], y);
  }

  lemma SmallerProduct(a: nat, b: nat, c: nat)
    requires a > 0 && b < c
    ensures a * b < a * c
  {
    MulStep(a, b);
    MulGrows(a, b + 1, c);
  }
}
