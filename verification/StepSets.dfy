/** Finite sets of step numbers: the largest one, the sorted order, and what is left
    after dropping the k largest (the slice `[: -k]` of the sorted listing). */
module StepSets {

  /** The largest member, or -1 for the empty set. */
  function Largest(steps: set<nat>): (r: int)
    ensures steps == {} ==> r == -1
    ensures steps != {} ==> r in steps
    ensures forall s | s in steps :: s <= r
  {
    if steps == {} then -1 else LargestNonEmpty(steps)
  }

  lemma MaxExists(steps: set<nat>)
    requires steps != {}
    ensures exists m :: m in steps && forall s | s in steps :: s <= m
  {
    var x :| x in steps;
    var rest := steps - {x};
    assert steps == rest + {x};
    if rest != {} {
      MaxExists(rest);
      var m :| m in rest && forall s | s in rest :: s <= m;
      var big := if m < x then x else m;
      assert forall s | s in steps :: s in rest || s == x;
      assert big in steps && forall s | s in steps :: s <= big;
    } else {
      assert forall s | s in steps :: s == x;
    }
  }

  function LargestNonEmpty(steps: set<nat>): (r: nat)
    requires steps != {}
    ensures r in steps && forall s | s in steps :: s <= r
  {
    MaxExists(steps);
    var m :| m in steps && forall s | s in steps :: s <= m;
    m
  }

  function Above(steps: set<nat>, bound: int): (r: set<nat>)
    ensures r <= steps
    ensures forall s :: s in r <==> s in steps && s > bound
  {
    set s | s in steps && s > bound
  }

  /** Ascending order. */
  function Sorted(steps: set<nat>): (r: seq<nat>)
    ensures |r| == |steps|
    ensures forall s :: s in r <==> s in steps
    decreases |steps|
  {
    if steps == {} then []
    else
      var m := LargestNonEmpty(steps);
      Sorted(steps - {m}) + [m]
  }

  lemma {:induction false} SortedAscends(steps: set<nat>, i: nat, j: nat)
    requires i < j < |steps|
    ensures Sorted(steps)[i] < Sorted(steps)[j]
    decreases |steps|
  {
    var m := LargestNonEmpty(steps);
    var rest := Sorted(steps - {m});
    assert rest[i] in rest;
    if j < |rest| {
      SortedAscends(steps - {m}, i, j);
    }
  }

  /** Ascending order of everything but the k largest. */
  function DropLargest(steps: set<nat>, k: nat): (r: seq<nat>)
    ensures forall s | s in r :: s in steps
    decreases k
  {
    if k == 0 then Sorted(steps)
    else if steps == {} then []
    else DropLargest(steps - {LargestNonEmpty(steps)}, k - 1)
  }

  /** `s[: stop]` as Python reads it: a negative stop counts from the end. */
  function SliceTo<T>(s: seq<T>, stop: int): seq<T> {
    if stop >= 0 then s[..if stop <= |s| then stop else |s|]
    else s[..if |s| + stop >= 0 then |s| + stop else 0]
  }

  /** The recursive form is the slice `[: -1 * k]` of the sorted listing exactly when k is not
      0, for which Python's slice is empty; the source never takes it then. */
  lemma DropLargestIsSlice(steps: set<nat>, k: nat)
    ensures DropLargest(steps, k) == SliceTo(Sorted(steps), -1 * k) <==> k > 0 || steps == {}
  {
    DropLargestIsPrefix(steps, k);
  }

  lemma {:induction false} DropLargestIsPrefix(steps: set<nat>, k: nat)
    ensures DropLargest(steps, k) == Sorted(steps)[..if |steps| <= k then 0 else |steps| - k]
    decreases k
  {
    if k > 0 && steps != {} {
      var m := LargestNonEmpty(steps);
      var rest := Sorted(steps - {m});
      var n := if |steps| <= k then 0 else |steps| - k;
      DropLargestIsPrefix(steps - {m}, k - 1);
      calc {
        Sorted(steps)[..n];
        (rest + [m])[..n];
        rest[..n];
        DropLargest(steps, k);
      }
    }
  }

  lemma DropLargestAscends(steps: set<nat>, k: nat, i: nat, j: nat)
    requires i < j < |DropLargest(steps, k)|
    ensures DropLargest(steps, k)[i] < DropLargest(steps, k)[j]
  {
    DropLargestIsPrefix(steps, k);
    SortedAscends(steps, i, j);
  }

  function Kept(steps: set<nat>, k: nat): (r: set<nat>)
    ensures r <= steps
  {
    set s | s in steps && s !in DropLargest(steps, k)
  }

  /** At most k members survive. */
  lemma {:induction false} DropLargestLeavesK(steps: set<nat>, k: nat)
    ensures |Kept(steps, k)| <= k
    decreases k
  {
    if k == 0 || steps == {} {
      assert forall s | s in steps :: k == 0 ==> s in Sorted(steps);
      assert Kept(steps, k) == {};
    } else {
      var m := LargestNonEmpty(steps);
      var inner := Kept(steps - {m}, k - 1);
      DropLargestLeavesK(steps - {m}, k - 1);
      assert Kept(steps, k) <= inner + {m};
      assert |inner + {m}| <= |inner| + 1;
      SubsetSize(Kept(steps, k), inner + {m});
    }
  }

  /** A member is dropped exactly when at least k members are larger. */
  lemma {:induction false} DroppedIff(steps: set<nat>, k: nat, s: nat)
    requires s in steps
    ensures s in DropLargest(steps, k) <==> |Above(steps, s)| >= k
    decreases k
  {
    if k > 0 {
      var m := LargestNonEmpty(steps);
      if s == m {
        assert Above(steps, s) == {};
      } else {
        DroppedIff(steps - {m}, k - 1, s);
        assert Above(steps, s) == Above(steps - {m}, s) + {m};
      }
    }
  }

  lemma {:induction false} SubsetSize(a: set<nat>, b: set<nat>)
    requires a <= b
    ensures |a| <= |b|
  {
    assert b == a + (b - a);
  }
}
