/** Pairing the ops of two logs in four passes. */
module MatchEntries {
  import opened Wrappers

  /** What matching looks at: the key, the shape stat ("" if absent) and the output hash. */
  datatype OpEntry = OpEntry(key: string, shape: string, outputHash: string)

  datatype Strategy = Override | Exact | Fuzzy | Stats

  // ----- keys -----

  predicate IsUpper(c: char) {
    'A' <= c <= 'Z'
  }

  predicate IsWord(c: char) {
    'A' <= c <= 'Z' || 'a' <= c <= 'z' || '0' <= c <= '9' || c == '_'
  }

  predicate IsDigit(c: char) {
    '0' <= c <= '9'
  }

  lemma CharClasses(c: char)
    ensures IsUpper(c) <==> c in "ABCDEFGHIJKLMNOPQRSTUVWXYZ"
    ensures IsDigit(c) <==> c in "0123456789"
    ensures IsWord(c) <==> IsUpper(c) || IsDigit(c) || c in "abcdefghijklmnopqrstuvwxyz" || c == '_'
  {
    CodesOf(c, "ABCDEFGHIJKLMNOPQRSTUVWXYZ", 'A');
    CodesOf(c, "abcdefghijklmnopqrstuvwxyz", 'a');
    CodesOf(c, "0123456789", '0');
  }

  lemma CodesOf(c: char, s: string, first: char)
    requires forall i | 0 <= i < |s| :: s[i] as int == first as int + i
    ensures c in s <==> first as int <= c as int < first as int + |s|
  {
    if first as int <= c as int < first as int + |s| {
      assert s[c as int - first as int] == c;
    }
  }

  /** How far a run of characters of one kind reaches from i on. */
  function RunEnd(s: string, i: nat, p: char -> bool): (j: nat)
    requires i <= |s|
    ensures i <= j <= |s| && (forall k | i <= k < j :: p(s[k])) && (j < |s| ==> !p(s[j]))
    decreases |s| - i
  {
    if i < |s| && p(s[i]) then RunEnd(s, i + 1, p) else i
  }

  /** `_strip_root_class_prefix`: a leading segment that starts with a capital and has
      another one is dropped, with its dot. */
  function StripRoot(key: string): string {
    var d := RunEnd(key, 0, IsWord);
    if d < |key| && key[d] == '.' && d > 0 && IsUpper(key[0]) && (exists k | 1 <= k < d :: IsUpper(key[k]))
    then key[d + 1..] else key
  }

  /** `re.sub(r"/op_\d+_", "/", key)` */
  function DropCounters(key: string): string {
    if key == "" then ""
    else if "/op_" <= key && RunEnd(key, 4, IsDigit) > 4 && RunEnd(key, 4, IsDigit) < |key|
      && key[RunEnd(key, 4, IsDigit)] == '_'
    then "/" + DropCounters(key[RunEnd(key, 4, IsDigit) + 1..])
    else [key[0]] + DropCounters(key[1..])
  }

  function FuzzyKey(key: string): string {
    StripRoot(DropCounters(key))
  }

  /** `s.split("/")[-1]` */
  function LastPart(s: string): string {
    if s == "" then ""
    else if '/' in s[1..] then LastPart(s[1..]) else if s[0] == '/' then s[1..] else s
  }

  /** What an entry is looked up by in one of the three automatic passes. */
  datatype Key = Text(text: string) | Signature(op: string, shape: string, hash: string)

  function ExactKey(e: OpEntry): Key {
    Text(StripRoot(e.key))
  }

  function LooseKey(e: OpEntry): Key {
    Text(FuzzyKey(e.key))
  }

  function StatsKey(e: OpEntry): Key {
    Signature(if '/' in e.key then LastPart(FuzzyKey(e.key)) else e.key, e.shape, e.outputHash)
  }

  // ----- what the keys leave out -----

  predicate AllWord(s: string) {
    forall i | 0 <= i < |s| :: IsWord(s[i])
  }

  predicate AllDigits(s: string) {
    forall i | 0 <= i < |s| :: IsDigit(s[i])
  }

  lemma {:induction false} RunIs(s: string, i: nat, j: nat, p: char -> bool)
    requires i <= j <= |s| && (forall k | i <= k < j :: p(s[k])) && (j < |s| ==> !p(s[j]))
    ensures RunEnd(s, i, p) == j
    decreases j - i
  {
    if i < j {
      RunIs(s, i + 1, j, p);
    }
  }

  /** A class name: it starts with a capital and has another one. */
  predicate ClassName(s: string) {
    s != "" && IsUpper(s[0]) && exists k :: 1 <= k < |s| && IsUpper(s[k])
  }

  /** A leading class name goes, and its dot; any other first segment stays. */
  lemma RootGoes(root: string, rest: string)
    requires root != "" && AllWord(root)
    ensures StripRoot(root + "." + rest) == if ClassName(root) then rest else root + "." + rest
  {
    var key := root + "." + rest;
    assert key[|root|] == '.';
    assert forall i | 0 <= i < |root| :: key[i] == root[i];
    RunIs(key, 0, |root|, IsWord);
    assert key[|root| + 1..] == rest;
    if ClassName(root) {
      var k :| 1 <= k < |root| && IsUpper(root[k]);
      assert IsUpper(key[k]);
    } else if IsUpper(root[0]) {
      assert forall k | 1 <= k < |root| :: !IsUpper(key[k]);
    }
  }

  /** A key without a dot after its first word stays. */
  lemma NoRootStays(word: string, rest: string)
    requires AllWord(word) && (rest == "" || (rest[0] != '.' && !IsWord(rest[0])))
    ensures StripRoot(word + rest) == word + rest
  {
    var key := word + rest;
    assert forall i | 0 <= i < |word| :: key[i] == word[i];
    assert rest != "" ==> key[|word|] == rest[0];
    RunIs(key, 0, |word|, IsWord);
  }

  /** What stands before the first slash stays. */
  lemma {:induction false} HeadStays(a: string, t: string)
    requires '/' !in a
    ensures DropCounters(a + t) == a + DropCounters(t)
  {
    if a == "" {
      assert a + t == t;
    } else {
      assert a[0] in a;
      assert (a + t)[0] == a[0] && (a + t)[1..] == a[1..] + t;
      HeadStays(a[1..], t);
    }
  }

  function Counter(digits: string): string {
    "/op_" + digits + "_"
  }

  /** A counter of any digits goes from its segment, and its slash stays. */
  lemma CounterGoes(digits: string, b: string)
    requires digits != "" && AllDigits(digits)
    ensures DropCounters(Counter(digits) + b) == "/" + DropCounters(b)
  {
    var key, n := Counter(digits) + b, 4 + |digits|;
    forall k | 4 <= k < n
      ensures key[k] == digits[k - 4]
    {
    }
    assert key[n] == '_' && key[n + 1..] == b;
    RunIs(key, 4, n, IsDigit);
    assert "/op_" <= key;
  }

  /** Other segments stay. */
  lemma SegmentStays(b: string)
    requires !("op_" <= b)
    ensures DropCounters("/" + b) == "/" + DropCounters(b)
  {
    var key := "/" + b;
    assert key[0] == '/' && key[1..] == b;
    assert "/op_" == "/" + "op_";
    assert "/op_" <= key <==> "op_" <= b;
  }

  lemma {:induction false} NoSlashStays(a: string)
    requires '/' !in a
    ensures DropCounters(a) == a && LastPart(a) == a
  {
    if a != "" {
      assert a[0] in a;
      NoSlashStays(a[1..]);
      assert a == [a[0]] + a[1..];
    }
  }

  lemma {:induction false} LastPartIs(a: string, b: string)
    requires '/' !in b
    ensures LastPart(a + "/" + b) == b
  {
    var s := a + "/" + b;
    if a == "" {
      assert s == "/" + b && s[1..] == b;
    } else {
      assert s[1..] == a[1..] + "/" + b;
      assert s[1..][|a| - 1] == '/';
      LastPartIs(a[1..], b);
    }
  }

  /** A logged key: class name, module path, counter and op. */
  function LogKey(root: string, path: string, digits: string, op: string): string {
    root + "." + (path + (Counter(digits) + op))
  }

  /** Two ops of one module that differ in the class name in front and in the counter have one
      loose key, and with equal shape and hash one signature; without a counter to differ in
      they have one exact key already. */
  lemma KeysMeet(root: string, path: string, digits: string, op: string, shape: string, hash: string)
    requires AllWord(root) && ClassName(root) && digits != "" && AllDigits(digits) && '/' !in path && '/' !in op
    ensures ExactKey(OpEntry(root + "." + path, shape, hash)) == Text(path)
    ensures ExactKey(OpEntry(LogKey(root, path, digits, op), shape, hash)) == Text(path + (Counter(digits) + op))
    ensures LooseKey(OpEntry(LogKey(root, path, digits, op), shape, hash)) == Text(path + ("/" + op))
    ensures StatsKey(OpEntry(LogKey(root, path, digits, op), shape, hash)) == Signature(op, shape, hash)
  {
    RootGoes(root, path);
    RootGoes(root, path + (Counter(digits) + op));
    FuzzyOf(root, path, digits, op);
    LastPartIs(path, op);
    assert path + "/" + op == path + ("/" + op);
    assert LogKey(root, path, digits, op)[|root| + 1 + |path|] == '/';
  }

  /** A key without a slash is compared whole in the stats pass. */
  lemma UnslashedStats(e: OpEntry)
    requires '/' !in e.key
    ensures StatsKey(e) == Signature(e.key, e.shape, e.outputHash)
  {
  }

  lemma NoSlashIn(root: string, path: string)
    requires AllWord(root) && '/' !in path
    ensures '/' !in root + "." + path
  {
  }

  lemma Regroup(root: string, path: string, tail: string)
    ensures root + "." + (path + tail) == (root + "." + path) + tail
  {
  }

  lemma FuzzyOf(root: string, path: string, digits: string, op: string)
    requires AllWord(root) && ClassName(root) && digits != "" && AllDigits(digits)
    requires '/' !in path && '/' !in op
    ensures FuzzyKey(LogKey(root, path, digits, op)) == path + ("/" + op)
  {
    var front := root + "." + path;
    NoSlashIn(root, path);
    Regroup(root, path, Counter(digits) + op);
    HeadStays(front, Counter(digits) + op);
    CounterGoes(digits, op);
    NoSlashStays(op);
    Regroup(root, path, "/" + op);
    RootGoes(root, path + ("/" + op));
  }

  // ----- the state of the matching -----

  datatype Slot = Slot(traced: nat, strategy: Strategy)

  /** `eager_results` and `traced_used`, by position. */
  datatype Matching = Matching(slots: seq<Option<Slot>>, used: set<nat>)

  ghost predicate Consistent(m: Matching, eager: nat, traced: nat) {
    && |m.slots| == eager
    && (forall i | 0 <= i < eager && m.slots[i].Some? ::
          m.slots[i].value.traced < traced && m.slots[i].value.traced in m.used)
    && (forall t | t in m.used :: t < traced && exists i :: 0 <= i < eager && Takes(m.slots, i, t))
    && forall i, j | 0 <= i < j < eager && m.slots[i].Some? && m.slots[j].Some? ::
      m.slots[i].value.traced != m.slots[j].value.traced
  }

  ghost predicate Takes(slots: seq<Option<Slot>>, i: nat, t: nat)
    requires i < |slots|
  {
    slots[i].Some? && slots[i].value.traced == t
  }

  /** What a pass may do: fill empty slots with unused entries of the wanted key. */
  ghost predicate Extends(m: Matching, n: Matching, want: seq<Option<Key>>, keys: seq<Key>, strategy: Strategy) {
    && |n.slots| == |m.slots| == |want| && m.used <= n.used
    && forall i | 0 <= i < |m.slots| ::
      n.slots[i] == m.slots[i] || (m.slots[i] == None && FilledFor(m, n.slots[i], want[i], keys, strategy))
  }

  ghost predicate FilledFor(m: Matching, slot: Option<Slot>, want: Option<Key>, keys: seq<Key>, strategy: Strategy) {
    && slot.Some? && slot.value.strategy == strategy && slot.value.traced !in m.used
    && slot.value.traced < |keys| && want == Some(keys[slot.value.traced])
  }

  /** Nothing is left to pair by these keys, among the first n eager entries. */
  ghost predicate NoPairLeft(m: Matching, want: seq<Option<Key>>, keys: seq<Key>, n: nat)
    requires n <= |want| && |m.slots| == |want|
  {
    forall i, t | 0 <= i < n && m.slots[i] == None && 0 <= t < |keys| && t !in m.used :: want[i] != Some(keys[t])
  }

  /** A later state pairs no less. */
  lemma StaysPaired(m: Matching, n: Matching, want: seq<Option<Key>>, keys: seq<Key>, k: nat)
    requires k <= |want| && |m.slots| == |n.slots| == |want| && NoPairLeft(m, want, keys, k)
    requires m.used <= n.used && forall i | 0 <= i < |m.slots| && m.slots[i].Some? :: n.slots[i].Some?
    ensures NoPairLeft(n, want, keys, k)
  {
  }

  // ----- one pass -----

  /** Unused traced entries by key, in log order. */
  ghost predicate IsIndex(index: map<Key, seq<nat>>, keys: seq<Key>, used: set<nat>, n: nat)
    requires n <= |keys|
  {
    && (forall k | k in index :: forall c | c in index[k] :: c < n && keys[c] == k && c !in used)
    && (forall k | k in index :: forall a, b | 0 <= a < b < |index[k]| :: index[k][a] < index[k][b])
    && forall t | 0 <= t < n && t !in used :: keys[t] in index && t in index[keys[t]]
  }

  lemma IndexOne(index: map<Key, seq<nat>>, keys: seq<Key>, used: set<nat>, n: nat)
    requires n < |keys| && IsIndex(index, keys, used, n)
    ensures n in used ==> IsIndex(index, keys, used, n + 1)
    ensures n !in used ==>
      IsIndex(index[keys[n] := (if keys[n] in index then index[keys[n]] else []) + [n]], keys, used, n + 1)
  {
    if n !in used {
      var old_ := if keys[n] in index then index[keys[n]] else [];
      var new_ := index[keys[n] := old_ + [n]];
      forall a, b | 0 <= a < b < |old_ + [n]|
        ensures (old_ + [n])[a] < (old_ + [n])[b]
      {
        if b == |old_| {
          assert old_[a] in old_;
        }
      }
      forall t | 0 <= t < n + 1 && t !in used
        ensures keys[t] in new_ && t in new_[keys[t]]
      {
      }
    }
  }

  /** The traced-side index of `_try_pass`. */
  method BuildIndex(keys: seq<Key>, used: set<nat>) returns (index: map<Key, seq<nat>>)
    ensures IsIndex(index, keys, used, |keys|)
  {
    index := map[];
    for t := 0 to |keys|
      invariant IsIndex(index, keys, used, t)
    {
      IndexOne(index, keys, used, t);
      if t !in used {
        index := index[keys[t] := (if keys[t] in index then index[keys[t]] else []) + [t]];
      }
    }
  }

  /** The first candidate that is still unused. */
  method FirstUnused(candidates: seq<nat>, used: set<nat>) returns (r: Option<nat>)
    requires forall a, b | 0 <= a < b < |candidates| :: candidates[a] < candidates[b]
    ensures r == None ==> forall c | c in candidates :: c in used
    ensures r.Some? ==> r.value in candidates && r.value !in used
    ensures r.Some? ==> forall c | c in candidates && c < r.value :: c in used
  {
    for k := 0 to |candidates|
      invariant forall i | 0 <= i < k :: candidates[i] in used
    {
      if candidates[k] !in used {
        return Some(candidates[k]);
      }
    }
    return None;
  }

  /** Traced entries with the key that come before t are all taken. */
  ghost predicate EarlierTaken(keys: seq<Key>, used: set<nat>, t: nat)
    requires t < |keys|
  {
    forall c | 0 <= c < t && keys[c] == keys[t] :: c in used
  }

  /** Slots filled by this pass among the first n took the earliest entry left. */
  ghost predicate InOrder(m: Matching, n: Matching, keys: seq<Key>, upto: nat)
    requires |m.slots| == |n.slots| && upto <= |m.slots|
  {
    && (forall i | 0 <= i < upto && NewlyFilled(m, n, i) && n.slots[i].value.traced < |keys| ::
          EarlierTaken(keys, n.used, n.slots[i].value.traced))
    && forall i, j | 0 <= i < j < upto && NewlyFilled(m, n, i) && NewlyFilled(m, n, j) &&
         n.slots[i].value.traced < |keys| && n.slots[j].value.traced < |keys| &&
         keys[n.slots[i].value.traced] == keys[n.slots[j].value.traced] ::
         n.slots[i].value.traced < n.slots[j].value.traced
  }

  ghost predicate NewlyFilled(m: Matching, n: Matching, i: nat)
    requires i < |m.slots| == |n.slots|
  {
    m.slots[i] == None && n.slots[i].Some?
  }

  /** The state in the middle of a pass, i eager entries done. */
  ghost predicate MidPass(m: Matching, n: Matching, want: seq<Option<Key>>, keys: seq<Key>, strategy: Strategy, i: nat)
    requires i <= |want|
  {
    && Consistent(n, |want|, |keys|) && Extends(m, n, want, keys, strategy)
    && NoPairLeft(n, want, keys, i) && InOrder(m, n, keys, i)
    && forall k | i <= k < |want| :: n.slots[k] == m.slots[k]
  }

  lemma SkipEntry(m: Matching, n: Matching, want: seq<Option<Key>>, keys: seq<Key>, strategy: Strategy, i: nat)
    requires i < |want| && MidPass(m, n, want, keys, strategy, i)
    requires m.slots[i] == None ==> forall t | 0 <= t < |keys| && t !in n.used :: want[i] != Some(keys[t])
    ensures MidPass(m, n, want, keys, strategy, i + 1)
  {
  }

  function Fill(n: Matching, i: nat, t: nat, strategy: Strategy): Matching
    requires i < |n.slots|
  {
    Matching(n.slots[i := Some(Slot(t, strategy))], n.used + {t})
  }

  lemma FillConsistent(n: Matching, eager: nat, traced: nat, i: nat, t: nat, strategy: Strategy)
    requires Consistent(n, eager, traced) && i < eager && n.slots[i] == None && t < traced && t !in n.used
    ensures Consistent(Fill(n, i, t, strategy), eager, traced)
  {
    var f := Fill(n, i, t, strategy);
    forall u | u in f.used
      ensures u < traced && exists k :: 0 <= k < eager && Takes(f.slots, k, u)
    {
      if u == t {
        assert Takes(f.slots, i, u);
      } else {
        var k :| 0 <= k < eager && Takes(n.slots, k, u);
        assert Takes(f.slots, k, u);
      }
    }
  }

  lemma FillOrder(m: Matching, n: Matching, want: seq<Option<Key>>, keys: seq<Key>, strategy: Strategy, i: nat, t: nat)
    requires i < |want| && MidPass(m, n, want, keys, strategy, i)
    requires m.slots[i] == None && t < |keys| && t !in n.used && want[i] == Some(keys[t])
    requires EarlierTaken(keys, n.used, t)
    ensures InOrder(m, Fill(n, i, t, strategy), keys, i + 1)
  {
    var f := Fill(n, i, t, strategy);
    forall k | 0 <= k < i && NewlyFilled(m, f, k) && f.slots[k].value.traced < |keys|
      ensures EarlierTaken(keys, f.used, f.slots[k].value.traced)
      ensures keys[f.slots[k].value.traced] == keys[t] ==> f.slots[k].value.traced < t
    {
      assert NewlyFilled(m, n, k);
      assert EarlierTaken(keys, n.used, n.slots[k].value.traced);
    }
  }

  lemma FillEntry(m: Matching, n: Matching, want: seq<Option<Key>>, keys: seq<Key>, strategy: Strategy, i: nat, t: nat)
    requires i < |want| && MidPass(m, n, want, keys, strategy, i)
    requires m.slots[i] == None && t < |keys| && t !in n.used && want[i] == Some(keys[t])
    requires EarlierTaken(keys, n.used, t)
    ensures MidPass(m, Fill(n, i, t, strategy), want, keys, strategy, i + 1)
  {
    FillConsistent(n, |want|, |keys|, i, t, strategy);
    FillOrder(m, n, want, keys, strategy, i, t);
    StaysPaired(n, Fill(n, i, t, strategy), want, keys, i);
  }

  /** `_try_pass` (and, with the override targets as wanted keys, pass 0): keeps what is
      paired, pairs by key in log order, and leaves no pair it could make. */
  method TryPass(m: Matching, want: seq<Option<Key>>, keys: seq<Key>, strategy: Strategy) returns (n: Matching)
    requires Consistent(m, |want|, |keys|)
    ensures Consistent(n, |want|, |keys|) && Extends(m, n, want, keys, strategy)
    ensures NoPairLeft(n, want, keys, |want|) && InOrder(m, n, keys, |want|)
  {
    var index := BuildIndex(keys, m.used);
    n := m;
    for i := 0 to |want|
      invariant MidPass(m, n, want, keys, strategy, i)
    {
      if n.slots[i].Some? || want[i].None? || want[i].value !in index {
        SkipEntry(m, n, want, keys, strategy, i);
        continue;
      }
      var c := FirstUnused(index[want[i].value], n.used);
      if c.Some? {
        FillEntry(m, n, want, keys, strategy, i, c.value);
        n := Fill(n, i, c.value, strategy);
      } else {
        SkipEntry(m, n, want, keys, strategy, i);
      }
    }
  }

  // ----- the four passes -----

  function Rank(s: Strategy): nat {
    match s
    case Override => 0
    case Exact => 1
    case Fuzzy => 2
    case Stats => 3
  }

  function WantedKey(e: OpEntry, overrides: map<string, string>, s: Strategy): Option<Key> {
    match s
    case Override => if e.key in overrides then Some(Text(overrides[e.key])) else None
    case Exact => Some(ExactKey(e))
    case Fuzzy => Some(LooseKey(e))
    case Stats => Some(StatsKey(e))
  }

  function OfferedKey(t: OpEntry, s: Strategy): Key {
    match s
    case Override => Text(t.key)
    case Exact => ExactKey(t)
    case Fuzzy => LooseKey(t)
    case Stats => StatsKey(t)
  }

  function Wanted(eager: seq<OpEntry>, overrides: map<string, string>, s: Strategy): seq<Option<Key>> {
    seq(|eager|, i requires 0 <= i < |eager| => WantedKey(eager[i], overrides, s))
  }

  function Offered(traced: seq<OpEntry>, s: Strategy): seq<Key> {
    seq(|traced|, t requires 0 <= t < |traced| => OfferedKey(traced[t], s))
  }

  /** The eager entry is left to passes after s. */
  ghost predicate EagerOpen(m: Matching, i: nat, s: Strategy)
    requires i < |m.slots|
  {
    m.slots[i].Some? ==> Rank(m.slots[i].value.strategy) > Rank(s)
  }

  /** The traced entry is left to passes after s. */
  ghost predicate TracedOpen(m: Matching, t: nat, s: Strategy) {
    forall i | 0 <= i < |m.slots| && Takes(m.slots, i, t) :: Rank(m.slots[i].value.strategy) > Rank(s)
  }

  /** Every pair is made by the key of the pass that made it. */
  ghost predicate PairedByKey(m: Matching, eager: seq<OpEntry>, traced: seq<OpEntry>, overrides: map<string, string>)
    requires |m.slots| == |eager|
  {
    forall i | 0 <= i < |eager| && m.slots[i].Some? && m.slots[i].value.traced < |traced| ::
      WantedKey(eager[i], overrides, m.slots[i].value.strategy)
      == Some(OfferedKey(traced[m.slots[i].value.traced], m.slots[i].value.strategy))
  }

  /** No two entries both left to later passes could have been paired by s. */
  ghost predicate NoBlockingPair(m: Matching, eager: seq<OpEntry>, traced: seq<OpEntry>,
                                 overrides: map<string, string>, s: Strategy)
    requires |m.slots| == |eager|
  {
    forall i, t | 0 <= i < |eager| && 0 <= t < |traced| && EagerOpen(m, i, s) && TracedOpen(m, t, s) ::
      WantedKey(eager[i], overrides, s) != Some(OfferedKey(traced[t], s))
  }

  /** Pairs of one pass and one key follow both logs, and take the earliest entries. */
  ghost predicate FirstCome(m: Matching, traced: seq<OpEntry>) {
    && (forall i, c | 0 <= i < |m.slots| && m.slots[i].Some? && 0 <= c < m.slots[i].value.traced < |traced| &&
          SameOffer(traced, c, m.slots[i].value) ::
          !TracedOpen(m, c, m.slots[i].value.strategy))
    && forall i, j | 0 <= i < j < |m.slots| && m.slots[i].Some? && m.slots[j].Some? &&
         m.slots[i].value.strategy == m.slots[j].value.strategy && m.slots[i].value.traced < |traced| &&
         m.slots[j].value.traced < |traced| && SameOffer(traced, m.slots[i].value.traced, m.slots[j].value) ::
         m.slots[i].value.traced < m.slots[j].value.traced
  }

  ghost predicate SameOffer(traced: seq<OpEntry>, c: nat, slot: Slot)
    requires c < |traced| && slot.traced < |traced|
  {
    OfferedKey(traced[c], slot.strategy) == OfferedKey(traced[slot.traced], slot.strategy)
  }

  /** The matching after the passes up to rank k. */
  ghost predicate Passed(m: Matching, eager: seq<OpEntry>, traced: seq<OpEntry>,
                         overrides: map<string, string>, k: int) {
    && Consistent(m, |eager|, |traced|) && PairedByKey(m, eager, traced, overrides) && FirstCome(m, traced)
    && (forall i | 0 <= i < |eager| && m.slots[i].Some? :: Rank(m.slots[i].value.strategy) <= k)
    && forall s: Strategy | Rank(s) <= k :: NoBlockingPair(m, eager, traced, overrides, s)
  }

  /** What one more pass gives. */
  ghost predicate OnePass(m: Matching, n: Matching, eager: seq<OpEntry>, traced: seq<OpEntry>,
                          overrides: map<string, string>, s: Strategy) {
    && var want, keys := Wanted(eager, overrides, s), Offered(traced, s);
    && Consistent(n, |eager|, |traced|) && |m.slots| == |eager| && Extends(m, n, want, keys, s)
    && NoPairLeft(n, want, keys, |eager|) && InOrder(m, n, keys, |eager|)
  }

  /** What was open after a pass was open before it. */
  lemma OpenBefore(m: Matching, n: Matching, eager: seq<OpEntry>, traced: seq<OpEntry>,
                   overrides: map<string, string>, s: Strategy, r: Strategy)
    requires OnePass(m, n, eager, traced, overrides, s)
    ensures forall i | 0 <= i < |eager| && EagerOpen(n, i, r) :: EagerOpen(m, i, r)
    ensures forall t: nat | TracedOpen(n, t, r) :: TracedOpen(m, t, r)
  {
    forall t: nat | TracedOpen(n, t, r)
      ensures TracedOpen(m, t, r)
    {
      forall i | 0 <= i < |m.slots| && Takes(m.slots, i, t)
        ensures Rank(m.slots[i].value.strategy) > Rank(r)
      {
        assert Takes(n.slots, i, t);
      }
    }
  }

  lemma PassKeepsBlocking(m: Matching, n: Matching, eager: seq<OpEntry>, traced: seq<OpEntry>,
                          overrides: map<string, string>, s: Strategy, r: Strategy)
    requires OnePass(m, n, eager, traced, overrides, s) && NoBlockingPair(m, eager, traced, overrides, r)
    ensures NoBlockingPair(n, eager, traced, overrides, r)
  {
    OpenBefore(m, n, eager, traced, overrides, s, r);
  }

  lemma PassRanks(m: Matching, n: Matching, eager: seq<OpEntry>, traced: seq<OpEntry>,
                  overrides: map<string, string>, s: Strategy)
    requires Passed(m, eager, traced, overrides, Rank(s) - 1) && OnePass(m, n, eager, traced, overrides, s)
    ensures forall i | 0 <= i < |eager| && n.slots[i].Some? :: Rank(n.slots[i].value.strategy) <= Rank(s)
    ensures PairedByKey(n, eager, traced, overrides)
  {
  }

  lemma PassBlocksNone(m: Matching, n: Matching, eager: seq<OpEntry>, traced: seq<OpEntry>,
                       overrides: map<string, string>, s: Strategy)
    requires Passed(m, eager, traced, overrides, Rank(s) - 1) && OnePass(m, n, eager, traced, overrides, s)
    ensures NoBlockingPair(n, eager, traced, overrides, s)
  {
    PassRanks(m, n, eager, traced, overrides, s);
    forall i, t | 0 <= i < |eager| && 0 <= t < |traced| && EagerOpen(n, i, s) && TracedOpen(n, t, s)
      ensures WantedKey(eager[i], overrides, s) != Some(OfferedKey(traced[t], s))
    {
      assert n.slots[i] == None;
      assert t !in n.used;
      assert Wanted(eager, overrides, s)[i] != Some(Offered(traced, s)[t]);
    }
  }

  lemma PassInOrder(m: Matching, n: Matching, eager: seq<OpEntry>, traced: seq<OpEntry>,
                    overrides: map<string, string>, s: Strategy)
    requires Passed(m, eager, traced, overrides, Rank(s) - 1) && OnePass(m, n, eager, traced, overrides, s)
    ensures FirstCome(n, traced)
  {
    var keys := Offered(traced, s);
    PassRanks(m, n, eager, traced, overrides, s);
    forall i, c | 0 <= i < |n.slots| && n.slots[i].Some? && 0 <= c < n.slots[i].value.traced < |traced| &&
      SameOffer(traced, c, n.slots[i].value)
      ensures !TracedOpen(n, c, n.slots[i].value.strategy)
    {
      if m.slots[i].Some? {
        OpenBefore(m, n, eager, traced, overrides, s, m.slots[i].value.strategy);
      } else {
        assert NewlyFilled(m, n, i);
        assert EarlierTaken(keys, n.used, n.slots[i].value.traced);
        assert c in n.used;
        var j :| 0 <= j < |eager| && Takes(n.slots, j, c);
      }
    }
    forall i, j | 0 <= i < j < |n.slots| && n.slots[i].Some? && n.slots[j].Some? &&
      n.slots[i].value.strategy == n.slots[j].value.strategy && n.slots[i].value.traced < |traced| &&
      n.slots[j].value.traced < |traced| && SameOffer(traced, n.slots[i].value.traced, n.slots[j].value)
      ensures n.slots[i].value.traced < n.slots[j].value.traced
    {
      if m.slots[i] == None {
        assert NewlyFilled(m, n, i) && NewlyFilled(m, n, j);
      } else {
        assert m.slots[j].Some?;
      }
    }
  }

  lemma PassUnblocked(m: Matching, n: Matching, eager: seq<OpEntry>, traced: seq<OpEntry>,
                      overrides: map<string, string>, s: Strategy, r: Strategy)
    requires Passed(m, eager, traced, overrides, Rank(s) - 1) && OnePass(m, n, eager, traced, overrides, s)
    requires Rank(r) <= Rank(s)
    ensures NoBlockingPair(n, eager, traced, overrides, r)
  {
    if Rank(r) < Rank(s) {
      assert NoBlockingPair(m, eager, traced, overrides, r);
      PassKeepsBlocking(m, n, eager, traced, overrides, s, r);
    } else {
      assert r == s;
      PassBlocksNone(m, n, eager, traced, overrides, s);
    }
  }

  lemma PassDone(m: Matching, n: Matching, eager: seq<OpEntry>, traced: seq<OpEntry>,
                 overrides: map<string, string>, s: Strategy)
    requires Passed(m, eager, traced, overrides, Rank(s) - 1) && OnePass(m, n, eager, traced, overrides, s)
    ensures Passed(n, eager, traced, overrides, Rank(s))
  {
    PassRanks(m, n, eager, traced, overrides, s);
    PassInOrder(m, n, eager, traced, overrides, s);
    forall r: Strategy | Rank(r) <= Rank(s)
      ensures NoBlockingPair(n, eager, traced, overrides, r)
    {
      PassUnblocked(m, n, eager, traced, overrides, s, r);
    }
  }

  method RunPass(m: Matching, eager: seq<OpEntry>, traced: seq<OpEntry>,
                 overrides: map<string, string>, s: Strategy, ghost passed: int, ghost passing: int)
    returns (n: Matching)
    requires passed == Rank(s) - 1 && passing == Rank(s)
    requires Passed(m, eager, traced, overrides, passed)
    ensures Passed(n, eager, traced, overrides, passing)
  {
    n := TryPass(m, Wanted(eager, overrides, s), Offered(traced, s), s);
    PassDone(m, n, eager, traced, overrides, s);
  }

  lemma NothingPassed(eager: seq<OpEntry>, traced: seq<OpEntry>, overrides: map<string, string>)
    ensures Passed(Unmatched(|eager|), eager, traced, overrides, -1)
  {
  }

  /** Without overrides pass 0 has nothing to do. */
  lemma NoOverrides(m: Matching, eager: seq<OpEntry>, traced: seq<OpEntry>)
    requires Passed(m, eager, traced, map[], -1)
    ensures Passed(m, eager, traced, map[], 0)
  {
    assert NoBlockingPair(m, eager, traced, map[], Override);
    forall s: Strategy | Rank(s) <= 0
      ensures NoBlockingPair(m, eager, traced, map[], s)
    {
    }
  }

  function Unmatched(eager: nat): Matching {
    Matching(seq(eager, _ => None), {})
  }

  /** The passes of `match_entries`, manual overrides first. */
  method PairUp(eager: seq<OpEntry>, traced: seq<OpEntry>, overrides: map<string, string>) returns (m: Matching)
    ensures Passed(m, eager, traced, overrides, 3)
  {
    m := Unmatched(|eager|);
    NothingPassed(eager, traced, overrides);
    if overrides != map[] {
      m := RunPass(m, eager, traced, overrides, Override, -1, 0);
    } else {
      NoOverrides(m, eager, traced);
    }
    m := RunPass(m, eager, traced, overrides, Exact, 0, 1);
    m := RunPass(m, eager, traced, overrides, Fuzzy, 1, 2);
    m := RunPass(m, eager, traced, overrides, Stats, 2, 3);
  }

  // ----- the report -----

  /** One line of the result: positions in the two logs and the pass that paired them. */
  datatype Row = Row(eager: Option<nat>, traced: Option<nat>, strategy: Option<Strategy>)

  function EagerRow(i: nat, slot: Option<Slot>): Row {
    match slot
    case None => Row(Some(i), None, None)
    case Some(p) => Row(Some(i), Some(p.traced), Some(p.strategy))
  }

  ghost predicate HasTraced(rows: seq<Row>, r: nat, t: nat)
    requires r < |rows|
  {
    rows[r].traced == Some(t)
  }

  /** The first n traced entries, where unclaimed, trail the eager rows in log order. */
  ghost predicate Trailing(rows: seq<Row>, m: Matching, n: nat) {
    && |m.slots| <= |rows|
    && (forall i | 0 <= i < |m.slots| :: rows[i] == EagerRow(i, m.slots[i]))
    && (forall r | |m.slots| <= r < |rows| ::
          && rows[r].eager == None && rows[r].strategy == None
          && rows[r].traced.Some? && rows[r].traced.value < n && rows[r].traced.value !in m.used)
    && (forall r, q | |m.slots| <= r < q < |rows| && rows[r].traced.Some? && rows[q].traced.Some? ::
          rows[r].traced.value < rows[q].traced.value)
    && forall t | 0 <= t < n && t !in m.used :: exists r :: |m.slots| <= r < |rows| && HasTraced(rows, r, t)
  }

  lemma TrailOne(rows: seq<Row>, m: Matching, n: nat)
    requires Trailing(rows, m, n)
    ensures n in m.used ==> Trailing(rows, m, n + 1)
    ensures n !in m.used ==> Trailing(rows + [Row(None, Some(n), None)], m, n + 1)
  {
    var more := rows + [Row(None, Some(n), None)];
    assert HasTraced(more, |rows|, n);
    forall t | 0 <= t < n && t !in m.used
      ensures exists r :: |m.slots| <= r < |more| && HasTraced(more, r, t)
    {
      var r :| |m.slots| <= r < |rows| && HasTraced(rows, r, t);
      assert HasTraced(more, r, t);
    }
  }

  method Emit(m: Matching, traced: nat) returns (rows: seq<Row>)
    ensures Trailing(rows, m, traced)
  {
    rows := [];
    for i := 0 to |m.slots|
      invariant |rows| == i && forall k | 0 <= k < i :: rows[k] == EagerRow(k, m.slots[k])
    {
      rows := rows + [EagerRow(i, m.slots[i])];
    }
    for t := 0 to traced
      invariant Trailing(rows, m, t)
    {
      TrailOne(rows, m, t);
      if t !in m.used {
        rows := rows + [Row(None, Some(t), None)];
      }
    }
  }

  ghost predicate OnlyRow(rows: seq<Row>, r: nat, t: nat) {
    && r < |rows| && HasTraced(rows, r, t)
    && forall q | 0 <= q < |rows| && HasTraced(rows, q, t) :: q == r
  }

  ghost predicate OnOneRow(rows: seq<Row>, t: nat) {
    exists r :: OnlyRow(rows, r, t)
  }

  /** Every traced entry is on exactly one line. */
  lemma TracedOnce(rows: seq<Row>, m: Matching, eager: nat, traced: nat, t: nat)
    requires Consistent(m, eager, traced) && Trailing(rows, m, traced) && t < traced
    ensures OnOneRow(rows, t)
  {
    if t in m.used {
      var i :| 0 <= i < eager && Takes(m.slots, i, t);
      assert rows[i] == EagerRow(i, m.slots[i]);
      assert HasTraced(rows, i, t);
      forall q | 0 <= q < |rows| && HasTraced(rows, q, t)
        ensures q == i
      {
        if q < eager {
          assert rows[q] == EagerRow(q, m.slots[q]);
        }
      }
      assert OnlyRow(rows, i, t);
    } else {
      var r :| eager <= r < |rows| && HasTraced(rows, r, t);
      assert forall q | 0 <= q < eager :: rows[q] == EagerRow(q, m.slots[q]);
      assert OnlyRow(rows, r, t);
    }
  }

  /** Eager entries first, one line each and in order, then lines without one. */
  ghost predicate EagerFirst(rows: seq<Row>, eager: nat) {
    && eager <= |rows|
    && (forall r | 0 <= r < |rows| :: rows[r].eager == (if r < eager then Some(r) else None))
    && (forall r | eager <= r < |rows| :: rows[r].traced.Some?)
    && forall r, q | eager <= r < q < |rows| && rows[r].traced.Some? && rows[q].traced.Some? ::
      rows[r].traced.value < rows[q].traced.value
  }

  /** What an entry's line says about the pass that took it; `left` when none did. */
  ghost predicate LeftBy(row: Row, s: Strategy) {
    row.strategy.Some? ==> Rank(row.strategy.value) > Rank(s)
  }

  /** Two lines whose entries were both left by pass s hold no pair that s could make. */
  ghost predicate RowsBlockNone(rows: seq<Row>, eager: seq<OpEntry>, traced: seq<OpEntry>,
                                overrides: map<string, string>, s: Strategy) {
    forall r, q | 0 <= r < |rows| && 0 <= q < |rows| && LeftBy(rows[r], s) && LeftBy(rows[q], s) &&
      rows[r].eager.Some? && rows[q].traced.Some? && rows[r].eager.value < |eager| && rows[q].traced.value < |traced| ::
      WantedKey(eager[rows[r].eager.value], overrides, s) != Some(OfferedKey(traced[rows[q].traced.value], s))
  }

  ghost predicate RowsByKey(rows: seq<Row>, eager: seq<OpEntry>, traced: seq<OpEntry>, overrides: map<string, string>) {
    && (forall r | 0 <= r < |rows| :: rows[r].strategy.Some? <==> rows[r].eager.Some? && rows[r].traced.Some?)
    && forall r | 0 <= r < |rows| && rows[r].strategy.Some? ::
      && rows[r].eager.value < |eager| && rows[r].traced.value < |traced|
      && WantedKey(eager[rows[r].eager.value], overrides, rows[r].strategy.value)
         == Some(OfferedKey(traced[rows[r].traced.value], rows[r].strategy.value))
  }

  lemma OpenRows(rows: seq<Row>, m: Matching, eager: nat, traced: nat, q: nat, s: Strategy)
    requires Consistent(m, eager, traced) && Trailing(rows, m, traced) && q < |rows| && LeftBy(rows[q], s)
    ensures q < eager ==> EagerOpen(m, q, s)
    ensures rows[q].traced.Some? ==> TracedOpen(m, rows[q].traced.value, s)
  {
    if q < eager {
      assert rows[q] == EagerRow(q, m.slots[q]);
    }
  }

  lemma RowsStable(rows: seq<Row>, m: Matching, eager: seq<OpEntry>, traced: seq<OpEntry>,
                   overrides: map<string, string>, s: Strategy)
    requires Consistent(m, |eager|, |traced|) && Trailing(rows, m, |traced|)
    requires NoBlockingPair(m, eager, traced, overrides, s)
    ensures RowsBlockNone(rows, eager, traced, overrides, s)
  {
    forall r, q | 0 <= r < |rows| && 0 <= q < |rows| && LeftBy(rows[r], s) && LeftBy(rows[q], s) &&
      rows[r].eager.Some? && rows[q].traced.Some? && rows[r].eager.value < |eager| && rows[q].traced.value < |traced|
      ensures WantedKey(eager[rows[r].eager.value], overrides, s) != Some(OfferedKey(traced[rows[q].traced.value], s))
    {
      assert rows[r] == EagerRow(r, m.slots[r]);
      assert EagerOpen(m, r, s) by { OpenRows(rows, m, |eager|, |traced|, r, s); }
      assert TracedOpen(m, rows[q].traced.value, s) by { OpenRows(rows, m, |eager|, |traced|, q, s); }
    }
  }

  /** Among traced entries a pass cannot tell apart, the earlier ones are taken first,
      by earlier eager entries. */
  ghost predicate RowsFirstCome(rows: seq<Row>, traced: seq<OpEntry>) {
    forall r, q | 0 <= r < |rows| && 0 <= q < |rows| && IsEarlier(rows[q], rows[r], traced) ::
      !LeftBy(rows[q], rows[r].strategy.value) && (rows[q].strategy == rows[r].strategy ==> q < r)
  }

  predicate IsEarlier(a: Row, b: Row, traced: seq<OpEntry>) {
    && a.traced.Some? && b.traced.Some? && b.strategy.Some? && a.traced.value < b.traced.value < |traced|
    && OfferedKey(traced[a.traced.value], b.strategy.value) == OfferedKey(traced[b.traced.value], b.strategy.value)
  }

  lemma RowsInOrder(rows: seq<Row>, m: Matching, eager: nat, traced: seq<OpEntry>)
    requires Consistent(m, eager, |traced|) && Trailing(rows, m, |traced|) && FirstCome(m, traced)
    ensures RowsFirstCome(rows, traced)
  {
    forall r, q | 0 <= r < |rows| && 0 <= q < |rows| && IsEarlier(rows[q], rows[r], traced)
      ensures !LeftBy(rows[q], rows[r].strategy.value) && (rows[q].strategy == rows[r].strategy ==> q < r)
    {
      var c, slot := rows[q].traced.value, m.slots[r].value;
      assert rows[r] == EagerRow(r, m.slots[r]);
      assert SameOffer(traced, c, slot);
      assert !TracedOpen(m, c, slot.strategy);
      assert c in m.used;
      assert rows[q] == EagerRow(q, m.slots[q]);
      assert Takes(m.slots, q, c);
    }
  }

  lemma RowsPaired(rows: seq<Row>, m: Matching, eager: seq<OpEntry>, traced: seq<OpEntry>,
                   overrides: map<string, string>)
    requires Passed(m, eager, traced, overrides, 3) && Trailing(rows, m, |traced|)
    ensures RowsByKey(rows, eager, traced, overrides) && EagerFirst(rows, |eager|)
  {
    forall r | 0 <= r < |eager|
      ensures rows[r].eager == Some(r)
    {
      assert rows[r] == EagerRow(r, m.slots[r]);
    }
  }

  /** `match_entries`: total, one line per entry, eager order kept, every pair made by the
      key of its pass, and no pass leaves a pair it could have made to a later one. */
  method Match(eager: seq<OpEntry>, traced: seq<OpEntry>, overrides: map<string, string>) returns (rows: seq<Row>)
    ensures EagerFirst(rows, |eager|)
    ensures forall t | 0 <= t < |traced| :: OnOneRow(rows, t)
    ensures RowsByKey(rows, eager, traced, overrides)
    ensures forall s: Strategy :: RowsBlockNone(rows, eager, traced, overrides, s)
    ensures RowsFirstCome(rows, traced)
  {
    var m := PairUp(eager, traced, overrides);
    rows := Emit(m, |traced|);
    RowsPaired(rows, m, eager, traced, overrides);
    RowsInOrder(rows, m, |eager|, traced);
    forall s: Strategy
      ensures RowsBlockNone(rows, eager, traced, overrides, s)
    {
      RowsStable(rows, m, eager, traced, overrides, s);
    }
    forall t | 0 <= t < |traced|
      ensures OnOneRow(rows, t)
    {
      TracedOnce(rows, m, |eager|, |traced|, t);
    }
  }

  lemma PassLeavesNone(rows: seq<Row>, eager: seq<OpEntry>, traced: seq<OpEntry>,
                       overrides: map<string, string>, s: Strategy, r: nat, q: nat)
    requires EagerFirst(rows, |eager|) && RowsByKey(rows, eager, traced, overrides)
    requires RowsBlockNone(rows, eager, traced, overrides, s)
    requires r < |eager| <= q < |rows| && rows[r].traced == None && rows[q].traced.value < |traced|
    ensures WantedKey(eager[r], overrides, s) != Some(OfferedKey(traced[rows[q].traced.value], s))
  {
    assert LeftBy(rows[r], s) && LeftBy(rows[q], s);
    assert rows[r].eager == Some(r);
  }

  /** At the end no unpaired eager entry shares a key of any pass with an unpaired traced one. */
  lemma NothingLeftToPair(rows: seq<Row>, eager: seq<OpEntry>, traced: seq<OpEntry>,
                          overrides: map<string, string>, r: nat, q: nat)
    requires EagerFirst(rows, |eager|) && RowsByKey(rows, eager, traced, overrides)
    requires forall s: Strategy :: RowsBlockNone(rows, eager, traced, overrides, s)
    requires r < |eager| <= q < |rows| && rows[r].traced == None && rows[q].traced.value < |traced|
    ensures var t := traced[rows[q].traced.value];
      && ExactKey(eager[r]) != ExactKey(t) && LooseKey(eager[r]) != LooseKey(t) && StatsKey(eager[r]) != StatsKey(t)
      && (eager[r].key in overrides ==> overrides[eager[r].key] != t.key)
  {
    forall s: Strategy
      ensures WantedKey(eager[r], overrides, s) != Some(OfferedKey(traced[rows[q].traced.value], s))
    {
      PassLeavesNone(rows, eager, traced, overrides, s, r, q);
    }
    var e, t := eager[r], traced[rows[q].traced.value];
    assert WantedKey(e, overrides, Override) != Some(OfferedKey(t, Override));
    assert WantedKey(e, overrides, Exact) != Some(OfferedKey(t, Exact));
    assert WantedKey(e, overrides, Fuzzy) != Some(OfferedKey(t, Fuzzy));
    assert WantedKey(e, overrides, Stats) != Some(OfferedKey(t, Stats));
  }
}
