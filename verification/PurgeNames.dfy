/** The purge over directory entries: it takes every name that carries a number, whatever it
    is called, and deletes by path. */
module PurgeNames {
  import opened CheckpointNames
  import opened StepSets
  import opened Wrappers
  import CheckpointProtocol

  /** A pair of `discovered_checkpoints`; all paths share the folder, so the name decides. */
  datatype Found = Found(step: nat, name: string)

  predicate NameLess(s: string, t: string) {
    t != "" && (s == "" || s[0] < t[0] || (s[0] == t[0] && NameLess(s[1..], t[1..])))
  }

  lemma {:induction false} NamesOrdered(s: string, t: string)
    ensures s != t ==> NameLess(s, t) || NameLess(t, s)
    ensures !(NameLess(s, t) && NameLess(t, s)) && !NameLess(s, s)
  {
    if s != "" {
      NamesOrdered(s[1..], s[1..]);
      if t != "" {
        NamesOrdered(s[1..], t[1..]);
        assert s == [s[0]] + s[1..] && t == [t[0]] + t[1..];
      }
    }
  }

  lemma {:induction false} NamesChain(s: string, t: string, u: string)
    requires NameLess(s, t) && NameLess(t, u)
    ensures NameLess(s, u)
  {
    if s != "" && s[0] == t[0] == u[0] {
      NamesChain(s[1..], t[1..], u[1..]);
    }
  }

  /** The order of pairs. */
  predicate Less(a: Found, b: Found) {
    a.step < b.step || (a.step == b.step && NameLess(a.name, b.name))
  }

  lemma Ordered(a: Found, b: Found)
    ensures a != b ==> Less(a, b) || Less(b, a)
    ensures !(Less(a, b) && Less(b, a))
  {
    NamesOrdered(a.name, b.name);
  }

  lemma Chain(a: Found, b: Found, c: Found)
    requires Less(a, b) && Less(b, c)
    ensures Less(a, c)
  {
    if a.step == b.step == c.step {
      NamesChain(a.name, b.name, c.name);
    }
  }

  ghost predicate Ascending(s: seq<Found>) {
    forall i, j | 0 <= i < j < |s| :: Less(s[i], s[j])
  }

  /** `sort()`, by insertion. */
  function Insert(f: Found, s: seq<Found>): (r: seq<Found>)
    ensures forall g :: g in r <==> g == f || g in s
  {
    if s == [] || Less(f, s[0]) then [f] + s else [s[0]] + Insert(f, s[1..])
  }

  function Sort(s: seq<Found>): (r: seq<Found>)
    ensures forall g :: g in r <==> g in s
  {
    if s == [] then [] else Insert(s[0], Sort(s[1..]))
  }

  lemma {:induction false} InsertAscends(f: Found, s: seq<Found>)
    requires Ascending(s) && f !in s
    ensures Ascending(Insert(f, s))
  {
    if s != [] {
      Ordered(f, s[0]);
      if Less(f, s[0]) {
        forall j | 0 < j < |s|
          ensures Less(f, s[j])
        {
          Chain(f, s[0], s[j]);
        }
      } else {
        InsertAscends(f, s[1..]);
        var rest := Insert(f, s[1..]);
        forall j | 0 <= j < |rest|
          ensures Less(s[0], rest[j])
        {
          assert rest[j] in rest;
        }
      }
    }
  }

  ghost predicate AllDifferent<T>(s: seq<T>) {
    forall i, j | 0 <= i < j < |s| :: s[i] != s[j]
  }

  lemma {:induction false} SortAscends(s: seq<Found>)
    requires AllDifferent(s)
    ensures Ascending(Sort(s))
  {
    if s != [] {
      assert forall i, j | 0 <= i < j < |s[1..]| :: s[1..][i] == s[i + 1] && s[1..][j] == s[j + 1];
      SortAscends(s[1..]);
      InsertAscends(s[0], Sort(s[1..]));
    }
  }

  // ----- ranks -----

  ghost function Larger(fs: set<Found>, f: Found): set<Found> {
    set g | g in fs && Less(f, g)
  }

  lemma {:induction false} MembersCount<T>(s: seq<T>)
    requires AllDifferent(s)
    ensures |set x | x in s| == |s|
  {
    if s != [] {
      var rest := s[1..];
      assert forall i, j | 0 <= i < j < |rest| :: rest[i] == s[i + 1] && rest[j] == s[j + 1];
      MembersCount(rest);
      assert (set x | x in s) == (set x | x in rest) + {s[0]};
      assert s[0] !in rest;
    }
  }

  /** In ascending order the pair at place i has |s| - 1 - i larger ones. */
  lemma Rank(s: seq<Found>, fs: set<Found>, i: nat)
    requires Ascending(s) && i < |s| && forall g :: g in fs <==> g in s
    ensures |Larger(fs, s[i])| == |s| - 1 - i
  {
    var above := s[i + 1..];
    forall g
      ensures g in Larger(fs, s[i]) <==> g in above
    {
      if g in above {
        var j :| 0 <= j < |above| && above[j] == g;
        assert g == s[i + 1 + j];
      }
      if g in Larger(fs, s[i]) {
        var j :| 0 <= j < |s| && s[j] == g;
        Ordered(s[i], s[j]);
        NamesOrdered(g.name, g.name);
        assert j > i;
        assert above[j - i - 1] == g;
      }
    }
    forall a, b | 0 <= a < b < |above|
      ensures above[a] != above[b]
    {
      NamesOrdered(above[a].name, above[a].name);
      assert Less(s[i + 1 + a], s[i + 1 + b]);
    }
    MembersCount(above);
    assert Larger(fs, s[i]) == set g | g in above;
  }

  // ----- the purge -----

  /** The pairs of all entries that carry a number. */
  function Discover(listing: seq<Entry>): (fs: seq<Found>)
    ensures forall f | f in fs :: exists e | e in listing :: e.name == f.name && StepOf(e.name) == Some(f.step)
    ensures forall e, s: nat | e in listing && StepOf(e.name) == Some(s) :: Found(s, e.name) in fs
  {
    if listing == [] then []
    else
      var rest := Discover(listing[1..]);
      if StepOf(listing[0].name).Some? then [Found(StepOf(listing[0].name).value, listing[0].name)] + rest else rest
  }

  ghost predicate DifferentNames(listing: seq<Entry>) {
    forall i, j | 0 <= i < j < |listing| :: listing[i].name != listing[j].name
  }

  lemma {:induction false} DiscoverDiffers(listing: seq<Entry>)
    requires DifferentNames(listing)
    ensures AllDifferent(Discover(listing))
  {
    if listing != [] {
      var tail := listing[1..];
      assert forall i, j | 0 <= i < j < |tail| :: tail[i] == listing[i + 1] && tail[j] == listing[j + 1];
      DiscoverDiffers(tail);
      forall f | f in Discover(tail)
        ensures f.name != listing[0].name
      {
        var e :| e in tail && e.name == f.name;
      }
    }
  }

  ghost function FoundIn(listing: seq<Entry>): set<Found> {
    set f | f in Discover(listing)
  }

  /** `_purge_stale_checkpoints` over the folder's entries, whose names differ: an entry is put
      on the purge queue exactly when its name carries a number and at least k pairs of number
      and name are larger. */
  method PurgeList(listing: seq<Entry>, k: nat) returns (toDelete: seq<Found>)
    requires k > 0 && DifferentNames(listing)
    ensures forall f :: f in toDelete <==> f in FoundIn(listing) && |Larger(FoundIn(listing), f)| >= k
    ensures Ascending(toDelete)
  {
    var sorted := Sort(Discover(listing));
    DiscoverDiffers(listing);
    SortAscends(Discover(listing));
    toDelete := SliceTo(sorted, -1 * k);
    forall i | 0 <= i < |sorted|
      ensures sorted[i] in toDelete <==> |Larger(FoundIn(listing), sorted[i])| >= k
    {
      Rank(sorted, FoundIn(listing), i);
      InSlice(sorted, |toDelete|, i);
    }
    assert forall f | f in toDelete :: f in sorted;
  }

  lemma InSlice(s: seq<Found>, n: nat, i: nat)
    requires Ascending(s) && n <= |s| && i < |s|
    ensures s[i] in s[..n] <==> i < n
  {
    if i < n {
      assert s[..n][i] == s[i];
    }
    if s[i] in s[..n] {
      var j :| 0 <= j < n && s[j] == s[i];
      NamesOrdered(s[i].name, s[i].name);
    }
  }

  // ----- with the saver's names only -----

  /** Every name that carries a number is one the saver gives. */
  ghost predicate OnlyGenerated(listing: seq<Entry>) {
    forall e, s: nat | e in listing && StepOf(e.name) == Some(s) :: e.name == CheckpointId(s)
  }

  lemma {:induction false} NamedCount(dirs: set<nat>)
    ensures |set d | d in dirs :: Found(d, CheckpointId(d))| == |dirs|
  {
    if dirs != {} {
      var d :| d in dirs;
      var rest := dirs - {d};
      NamedCount(rest);
      var f := Found(d, CheckpointId(d));
      assert (set x | x in dirs :: Found(x, CheckpointId(x))) == (set x | x in rest :: Found(x, CheckpointId(x))) + {f};
      assert f !in set x | x in rest :: Found(x, CheckpointId(x));
    }
  }

  lemma FoundIsDir(listing: seq<Entry>, disk: CheckpointProtocol.Folder, f: Found)
    requires Lists(listing, disk) && OnlyGenerated(listing)
    ensures f in FoundIn(listing) <==> f.step in disk && f.name == CheckpointId(f.step)
  {
    if f in FoundIn(listing) {
      var e :| e in listing && e.name == f.name && StepOf(e.name) == Some(f.step);
      assert Shows(e, disk, f.step);
    }
    if f.step in disk && f.name == CheckpointId(f.step) {
      var e :| e in listing && Shows(e, disk, f.step);
      NameRoundTrip(f.step);
      assert Found(f.step, e.name) in Discover(listing);
    }
  }

  /** Then the purge of the entries is the purge of the numbers: a step's directory is deleted
      exactly when it is not among the k largest steps. */
  lemma PurgesNumbers(listing: seq<Entry>, disk: CheckpointProtocol.Folder, k: nat, d: nat)
    requires Lists(listing, disk) && OnlyGenerated(listing) && d in disk
    ensures Found(d, CheckpointId(d)) in FoundIn(listing)
    ensures |Larger(FoundIn(listing), Found(d, CheckpointId(d)))| >= k <==> d in DropLargest(disk.Keys, k)
  {
    var f, above := Found(d, CheckpointId(d)), Above(disk.Keys, d);
    FoundIsDir(listing, disk, f);
    forall g
      ensures g in Larger(FoundIn(listing), f) <==> g.step in above && g.name == CheckpointId(g.step)
    {
      FoundIsDir(listing, disk, g);
      NamesOrdered(f.name, f.name);
    }
    assert Larger(FoundIn(listing), f) == set x | x in above :: Found(x, CheckpointId(x));
    NamedCount(above);
    DroppedIff(disk.Keys, k, d);
  }

  // ----- with stray names -----

  lemma Discovered(listing: seq<Entry>, i: nat, step: nat)
    requires i < |listing| && StepOf(listing[i].name) == Some(step)
    ensures Found(step, listing[i].name) in FoundIn(listing)
  {
    assert listing[i] in listing;
  }

  lemma TwoLarger(fs: set<Found>, f: Found, g: Found, h: Found)
    requires g in fs && h in fs && f.step < g.step < h.step
    ensures |Larger(fs, f)| >= 2
  {
    var rest := Larger(fs, f) - {g} - {h};
    assert Larger(fs, f) == rest + {g} + {h};
  }

  function Whole(name: string): Entry {
    Entry(name, true, false)
  }

  /** Two copies under other names: the purge after the save of step 10 takes its directory. */
  lemma StraysPushOut(own: string, one: string, two: string)
    requires own == CheckpointId(10) && one == "backup-" + CheckpointId(100) && two == "backup-" + CheckpointId(200)
    ensures var listing := [Whole(own), Whole(one), Whole(two)];
      DifferentNames(listing) && Found(10, own) in FoundIn(listing) && |Larger(FoundIn(listing), Found(10, own))| >= 2
  {
    var listing := [Whole(own), Whole(one), Whole(two)];
    NameRoundTrip(10);
    PrefixedName("backup-", 100);
    PrefixedName("backup-", 200);
    Discovered(listing, 0, 10);
    Discovered(listing, 1, 100);
    Discovered(listing, 2, 200);
    TwoLarger(FoundIn(listing), Found(10, own), Found(100, one), Found(200, two));
  }
}
