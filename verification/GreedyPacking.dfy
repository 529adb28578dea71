/** Next-fit packing of whole documents into rows of at most `cap` tokens, and what it
    promises for every list of documents. */
module GreedyPacking {
  import opened Arithmetic
  import opened Sequences

  type Bin<T> = seq<seq<T>>

  function Fill<T>(b: Bin<T>): nat {
    if b == [] then 0 else |b[0]| + Fill(b[1..])
  }

  /** The bins closed while placing `docs` one after the other, starting from an open bin;
      a document that does not fit closes the bin, and so does an exact fit. */
  function NextFit<T>(cap: nat, docs: seq<seq<T>>, open: Bin<T>): seq<Bin<T>>
    decreases |docs|, 0
  {
    if docs == [] then
      if Fill(open) > 0 then [open] else []
    else if Fill(open) > 0 && |docs[0]| > cap - Fill(open) then
      [open] + Put(cap, docs[1..], [docs[0]])
    else
      Put(cap, docs[1..], open + [docs[0]])
  }

  /** Go on after placing a document: a full bin is closed at once. */
  function Put<T>(cap: nat, rest: seq<seq<T>>, b: Bin<T>): seq<Bin<T>>
    decreases |rest|, 1
  {
    if Fill(b) == cap then [b] + NextFit(cap, rest, []) else NextFit(cap, rest, b)
  }

  lemma {:induction false} FillJoin<T>(a: Bin<T>, b: Bin<T>)
    ensures Fill(a + b) == Fill(a) + Fill(b)
  {
    if a == [] {
      assert a + b == b;
    } else {
      assert (a + b)[1..] == a[1..] + b;
      FillJoin(a[1..], b);
    }
  }

  ghost predicate AllFit<T>(cap: nat, docs: seq<seq<T>>) {
    forall i | 0 <= i < |docs| :: |docs[i]| <= cap
  }

  /** An open bin has room left. */
  ghost predicate HasRoom<T>(cap: nat, open: Bin<T>) {
    Fill(open) < cap || (cap == 0 && Fill(open) == 0)
  }

  ghost predicate AllEmpty<T>(docs: seq<seq<T>>) {
    forall i | 0 <= i < |docs| :: docs[i] == []
  }

  lemma {:induction false} EmptyFill<T>(b: Bin<T>)
    requires Fill(b) == 0
    ensures AllEmpty(b)
  {
    if b != [] {
      EmptyFill(b[1..]);
    }
  }

  /** Every document ends up whole in exactly one bin, in the given order; only documents
      without tokens can be left over. */
  lemma {:induction false} PackingConserves<T>(cap: nat, docs: seq<seq<T>>, open: Bin<T>)
    returns (leftover: seq<seq<T>>)
    requires AllFit(cap, docs) && HasRoom(cap, open)
    ensures Flatten(NextFit(cap, docs, open)) + leftover == open + docs && AllEmpty(leftover)
    decreases |docs|, 0
  {
    if docs == [] {
      if Fill(open) > 0 {
        assert Flatten([open]) == open + Flatten([]);
        leftover := [];
      } else {
        EmptyFill(open);
        leftover := open;
      }
    } else if Fill(open) > 0 && |docs[0]| > cap - Fill(open) {
      leftover := PutConserves(cap, docs[1..], [docs[0]]);
      var rest := Put(cap, docs[1..], [docs[0]]);
      assert ([open] + rest)[1..] == rest;
      assert open + docs == open + ([docs[0]] + docs[1..]);
    } else {
      FillJoin(open, [docs[0]]);
      leftover := PutConserves(cap, docs[1..], open + [docs[0]]);
      assert open + docs == open + [docs[0]] + docs[1..];
    }
  }

  lemma {:induction false} PutConserves<T>(cap: nat, rest: seq<seq<T>>, b: Bin<T>) returns (leftover: seq<seq<T>>)
    requires AllFit(cap, rest) && Fill(b) <= cap
    ensures Flatten(Put(cap, rest, b)) + leftover == b + rest && AllEmpty(leftover)
    decreases |rest|, 1
  {
    if Fill(b) == cap {
      leftover := PackingConserves(cap, rest, []);
      assert ([b] + NextFit(cap, rest, []))[1..] == NextFit(cap, rest, []);
      assert [] + rest == rest;
    } else {
      leftover := PackingConserves(cap, rest, b);
    }
  }

  /** No bin overflows, and no bin is empty of tokens. */
  ghost predicate BinsFit<T>(cap: nat, bins: seq<Bin<T>>) {
    forall i | 0 <= i < |bins| :: Fill(bins[i]) <= cap && (cap > 0 ==> Fill(bins[i]) > 0)
  }

  /** Two consecutive bins together hold more than one row could. */
  ghost predicate NeighboursOverflow<T>(cap: nat, bins: seq<Bin<T>>) {
    forall i, j | 0 <= i < j < |bins| && j == i + 1 :: Fill(bins[i]) + Fill(bins[j]) > cap
  }

  lemma ConsFits<T>(cap: nat, b: Bin<T>, bins: seq<Bin<T>>)
    requires BinsFit(cap, bins) && Fill(b) <= cap && (cap > 0 ==> Fill(b) > 0)
    requires cap > 0 ==> NeighboursOverflow(cap, bins)
    requires cap > 0 && bins != [] ==> Fill(b) + Fill(bins[0]) > cap
    ensures BinsFit(cap, [b] + bins) && (cap > 0 ==> NeighboursOverflow(cap, [b] + bins))
  {
  }

  lemma {:induction false} PackingFits<T>(cap: nat, docs: seq<seq<T>>, open: Bin<T>)
    requires AllFit(cap, docs) && HasRoom(cap, open)
    ensures var bins := NextFit(cap, docs, open);
      && BinsFit(cap, bins)
      && (cap > 0 ==> NeighboursOverflow(cap, bins))
      && (Fill(open) > 0 ==> bins != [] && Fill(bins[0]) >= Fill(open))
    decreases |docs|, 0
  {
    if docs != [] {
      if Fill(open) > 0 && |docs[0]| > cap - Fill(open) {
        PutFits(cap, docs[1..], [docs[0]]);
        ConsFits(cap, open, Put(cap, docs[1..], [docs[0]]));
      } else {
        FillJoin(open, [docs[0]]);
        PutFits(cap, docs[1..], open + [docs[0]]);
      }
    }
  }

  lemma {:induction false} PutFits<T>(cap: nat, rest: seq<seq<T>>, b: Bin<T>)
    requires AllFit(cap, rest) && Fill(b) <= cap
    ensures var bins := Put(cap, rest, b);
      && BinsFit(cap, bins)
      && (cap > 0 ==> NeighboursOverflow(cap, bins))
      && (Fill(b) > 0 || cap == 0 ==> bins != [] && Fill(bins[0]) >= Fill(b))
    decreases |rest|, 1
  {
    if Fill(b) == cap {
      PackingFits(cap, rest, []);
      ConsFits(cap, b, NextFit(cap, rest, []));
    } else {
      PackingFits(cap, rest, b);
    }
  }

  /** Tokens in all bins. */
  function Total<T>(bins: seq<Bin<T>>): nat {
    if bins == [] then 0 else Fill(bins[0]) + Total(bins[1..])
  }

  lemma {:induction false} FewBins<T>(cap: nat, bins: seq<Bin<T>>)
    requires cap > 0 && NeighboursOverflow(cap, bins)
    ensures cap * |bins| <= 2 * Total(bins) + cap
    decreases |bins|
  {
    if |bins| >= 2 {
      var rest := bins[2..];
      assert bins[1..][1..] == rest;
      FewBins(cap, rest);
      MulStep(cap, |rest|);
      MulStep(cap, |rest| + 1);
    } else if |bins| == 1 {
      MulStep(cap, 0);
    }
  }

  lemma {:induction false} TotalFlat<T>(bins: seq<Bin<T>>)
    ensures Total(bins) == Fill(Flatten(bins))
  {
    if bins != [] {
      TotalFlat(bins[1..]);
      FillJoin(bins[0], Flatten(bins[1..]));
    }
  }

  lemma PackedTokens<T>(cap: nat, docs: seq<seq<T>>)
    requires AllFit(cap, docs)
    ensures Total(NextFit(cap, docs, [])) <= Fill(docs)
  {
    var bins := NextFit(cap, docs, []);
    var leftover := PackingConserves(cap, docs, []);
    assert [] + docs == docs;
    TotalFlat(bins);
    FillJoin(Flatten(bins), leftover);
  }

  lemma CountBound(cap: nat, n: nat, total: nat)
    requires cap > 0 && cap * n <= total + cap
    ensures n <= total / cap + 1
  {
    if n > 0 {
      MulStep(cap, n - 1);
      assert total == cap * (total / cap) + total % cap;
      QuotientBound(cap, total / cap, total % cap, n - 1);
    }
  }

  /** The row count is at most twice the ideal one, plus one. */
  lemma PackingBound<T>(cap: nat, docs: seq<seq<T>>)
    requires cap > 0 && AllFit(cap, docs)
    ensures |NextFit(cap, docs, [])| <= 2 * Fill(docs) / cap + 1
  {
    var bins := NextFit(cap, docs, []);
    PackingFits(cap, docs, []);
    FewBins(cap, bins);
    PackedTokens(cap, docs);
    CountBound(cap, |bins|, 2 * Fill(docs));
  }

  /** Something is emitted whenever there is a token to pack, or rows hold none. */
  lemma {:induction false} PackingEmits<T>(cap: nat, docs: seq<seq<T>>, open: Bin<T>, k: nat)
    requires AllFit(cap, docs) && HasRoom(cap, open)
    requires k < |docs| && (docs[k] != [] || cap == 0)
    ensures NextFit(cap, docs, open) != []
    decreases |docs|, k
  {
    if !(Fill(open) > 0 && |docs[0]| > cap - Fill(open)) {
      var b := open + [docs[0]];
      FillJoin(open, [docs[0]]);
      if k == 0 {
        PutFits(cap, docs[1..], b);
      } else if Fill(b) != cap {
        PackingEmits(cap, docs[1..], b, k - 1);
      }
    }
  }

  // ----- next fit -----

  /** A bin is closed only when it is full or the document that opens the next one does not
      fit any more. */
  ghost predicate ClosedInTime<T>(cap: nat, bins: seq<Bin<T>>) {
    forall i, j | 0 <= i < j < |bins| && j == i + 1 ::
      Fill(bins[i]) == cap || (bins[j] != [] && Fill(bins[i]) + |bins[j][0]| > cap)
  }

  lemma ConsCloses<T>(cap: nat, b: Bin<T>, bins: seq<Bin<T>>)
    requires ClosedInTime(cap, bins)
    requires bins != [] ==> Fill(b) == cap || (bins[0] != [] && Fill(b) + |bins[0][0]| > cap)
    ensures ClosedInTime(cap, [b] + bins)
  {
  }

  lemma {:induction false} PackingCloses<T>(cap: nat, docs: seq<seq<T>>, open: Bin<T>)
    ensures ClosedInTime(cap, NextFit(cap, docs, open))
    ensures NextFit(cap, docs, open) != [] ==> open <= NextFit(cap, docs, open)[0]
    decreases |docs|, 0
  {
    if docs != [] {
      if Fill(open) > 0 && |docs[0]| > cap - Fill(open) {
        PutCloses(cap, docs[1..], [docs[0]]);
        var rest := Put(cap, docs[1..], [docs[0]]);
        assert rest != [] ==> rest[0][0] == docs[0];
        ConsCloses(cap, open, rest);
      } else {
        PutCloses(cap, docs[1..], open + [docs[0]]);
      }
    }
  }

  lemma {:induction false} PutCloses<T>(cap: nat, rest: seq<seq<T>>, b: Bin<T>)
    ensures ClosedInTime(cap, Put(cap, rest, b))
    ensures Put(cap, rest, b) != [] ==> b <= Put(cap, rest, b)[0]
    decreases |rest|, 1
  {
    if Fill(b) == cap {
      PackingCloses(cap, rest, []);
      ConsCloses(cap, b, NextFit(cap, rest, []));
    } else {
      PackingCloses(cap, rest, b);
    }
  }
}
