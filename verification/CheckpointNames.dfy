/** Directory names: `step-<n>` is written for a save and searched for when loading. */
module CheckpointNames {
  import opened Decimals
  import opened Wrappers
  import CheckpointProtocol

  const PREFIX: string := "step-"

  /** How many digits start at position i (the greedy `\d+`). */
  function DigitRun(s: string, i: nat): (n: nat)
    requires i <= |s|
    ensures i + n <= |s|
    ensures forall k | i <= k < i + n :: IsDigit(s[k])
    ensures i + n < |s| ==> !IsDigit(s[i + n])
    decreases |s| - i
  {
    if i < |s| && IsDigit(s[i]) then 1 + DigitRun(s, i + 1) else 0
  }

  predicate MatchesAt(name: string, i: nat)
    requires i <= |name|
  {
    PREFIX <= name[i..] && DigitRun(name, i + |PREFIX|) > 0
  }

  /** `re.search(r"step-(\d+)", name)`, from position i on: the leftmost match wins. */
  function SearchFrom(name: string, i: nat): Option<nat>
    requires i <= |name|
    decreases |name| - i
  {
    if MatchesAt(name, i) then
      var start := i + |PREFIX|;
      Some(ParseInt(name[start..start + DigitRun(name, start)]))
    else if i == |name| then None
    else SearchFrom(name, i + 1)
  }

  function StepOf(name: string): Option<nat> {
    SearchFrom(name, 0)
  }

  /** `step-` and a digit stand at position j. */
  predicate NumberAt(name: string, j: nat) {
    j + |PREFIX| < |name| && name[j..j + |PREFIX|] == PREFIX && IsDigit(name[j + |PREFIX|])
  }

  lemma MatchIsNumber(name: string, i: nat)
    requires i <= |name|
    ensures MatchesAt(name, i) <==> NumberAt(name, i)
  {
    if |name| >= i + |PREFIX| {
      assert name[i..][..|PREFIX|] == name[i..i + |PREFIX|];
    }
  }

  /** The digits from position i on, up to the first other character. */
  ghost predicate DigitsAt(name: string, i: nat, digits: string) {
    && i + |digits| <= |name| && name[i..i + |digits|] == digits && digits != ""
    && (forall k | 0 <= k < |digits| :: IsDigit(digits[k]))
    && (i + |digits| < |name| ==> !IsDigit(name[i + |digits|]))
  }

  /** The search finds the whole number behind the leftmost `step-` that has one, and nothing
      exactly when there is none. */
  lemma {:induction false} FoundIsLeftmost(name: string, i: nat)
    requires i <= |name|
    ensures SearchFrom(name, i) == None <==> forall j | i <= j :: !NumberAt(name, j)
    ensures SearchFrom(name, i).Some? ==> exists j, digits ::
      && i <= j && NumberAt(name, j) && (forall k | i <= k < j :: !NumberAt(name, k))
      && DigitsAt(name, j + |PREFIX|, digits) && SearchFrom(name, i).value == ParseInt(digits)
    decreases |name| - i
  {
    MatchIsNumber(name, i);
    if MatchesAt(name, i) {
      var start := i + |PREFIX|;
      assert DigitsAt(name, start, name[start..start + DigitRun(name, start)]);
    } else if i < |name| {
      FoundIsLeftmost(name, i + 1);
      if SearchFrom(name, i).Some? {
        var j, digits :| i + 1 <= j && NumberAt(name, j) && (forall k | i + 1 <= k < j :: !NumberAt(name, k))
          && DigitsAt(name, j + |PREFIX|, digits) && SearchFrom(name, i).value == ParseInt(digits);
        assert forall k | i <= k < j :: !NumberAt(name, k);
      }
    }
  }

  /** `_create_checkpoint_id`. */
  function CheckpointId(step: nat): string {
    PREFIX + Decimal(step)
  }

  lemma {:induction false} DigitsToEnd(s: string, i: nat)
    requires i <= |s| && forall k | i <= k < |s| :: IsDigit(s[k])
    ensures DigitRun(s, i) == |s| - i
    decreases |s| - i
  {
    if i < |s| {
      DigitsToEnd(s, i + 1);
    }
  }

  lemma DigitsMatch(name: string, i: nat, digits: string)
    requires i <= |name| && name[i..] == PREFIX + digits
    requires |digits| > 0 && forall k | 0 <= k < |digits| :: IsDigit(digits[k])
    ensures MatchesAt(name, i) && DigitRun(name, i + |PREFIX|) == |digits|
    ensures name[i + |PREFIX|..i + |PREFIX| + |digits|] == digits
  {
    var start := i + |PREFIX|;
    forall k | start <= k < |name|
      ensures name[k] == digits[k - start]
    {
      assert name[k] == name[i..][k - i];
    }
    DigitsToEnd(name, start);
  }

  lemma DigitsFound(name: string, i: nat, digits: string)
    requires i <= |name| && name[i..] == PREFIX + digits
    requires |digits| > 0 && forall k | 0 <= k < |digits| :: IsDigit(digits[k])
    ensures SearchFrom(name, i) == Some(ParseInt(digits))
  {
    DigitsMatch(name, i, digits);
  }

  lemma DropBefore<T>(s: seq<T>, t: seq<T>)
    ensures (s + t)[|s|..] == t
  {
  }

  lemma NumberAfter(before: string, step: nat)
    ensures SearchFrom(before + CheckpointId(step), |before|) == Some(step)
  {
    DropBefore(before, CheckpointId(step));
    DigitsFound(before + CheckpointId(step), |before|, Decimal(step));
    ParseDecimal(step);
  }

  lemma NameRoundTrip(step: nat)
    ensures StepOf(CheckpointId(step)) == Some(step)
  {
    NumberAfter("", step);
    assert "" + CheckpointId(step) == CheckpointId(step);
  }

  lemma {:induction false} SearchSkips(name: string, i: nat, j: nat)
    requires i <= j <= |name| && forall k | i <= k < j :: name[k] != 's'
    ensures SearchFrom(name, i) == SearchFrom(name, j)
    decreases j - i
  {
    if i < j {
      assert name[i..][0] != PREFIX[0];
      SearchSkips(name, i + 1, j);
    }
  }

  /** The search is not anchored: whatever stands before the generated name, as long as no
      match starts in it, does not matter. */
  lemma PrefixedName(before: string, step: nat)
    requires forall k | 0 <= k < |before| :: before[k] != 's'
    ensures StepOf(before + CheckpointId(step)) == Some(step)
  {
    SearchSkips(before + CheckpointId(step), 0, |before|);
    NumberAfter(before, step);
  }

  /** One directory entry and what a probe of it finds. */
  datatype Entry = Entry(name: string, hasDcpMetadata: bool, hasHfIndex: bool)

  predicate ValidStep(e: Entry, s: nat) {
    StepOf(e.name) == Some(s) && (e.hasDcpMetadata || e.hasHfIndex)
  }

  /** `_find_load_step` over the directory listing. */
  method FindLoadStep(listing: seq<Entry>) returns (r: int)
    ensures r >= -1
    ensures r >= 0 ==> exists e | e in listing :: ValidStep(e, r)
    ensures forall e, s: nat | e in listing && ValidStep(e, s) :: s <= r
  {
    r := -1;
    for i := 0 to |listing|
      invariant r >= -1
      invariant r >= 0 ==> exists e | e in listing[..i] :: ValidStep(e, r)
      invariant forall e, s: nat | e in listing[..i] && ValidStep(e, s) :: s <= r
    {
      var e := listing[i];
      var found := StepOf(e.name);
      assert listing[..i + 1] == listing[..i] + [e];
      if found.Some? && (e.hasDcpMetadata || e.hasHfIndex) {
        assert ValidStep(e, found.value);
        if found.value > r {
          r := found.value;
        }
      }
    }
    assert listing[..|listing|] == listing;
  }

  /** The entry shows directory `s` of the folder under the name the saver gave it. */
  predicate Shows(e: Entry, disk: CheckpointProtocol.Folder, s: nat) {
    && s in disk && e.name == CheckpointId(s)
    && (e.hasDcpMetadata || e.hasHfIndex) == disk[s].metadata
  }

  /** A listing of the folder, in any order: the names the saver gives are its directories,
      none of them missing. There may be other entries, with or without a number. */
  ghost predicate Lists(listing: seq<Entry>, disk: CheckpointProtocol.Folder) {
    && (forall e, s: nat | e in listing && e.name == CheckpointId(s) :: Shows(e, disk, s))
    && (forall s: nat | s in disk :: exists e | e in listing :: Shows(e, disk, s))
  }

  /** No entry with another name, like a copy `backup-step-100`, carries a number beyond the
      newest complete step. */
  ghost predicate NoStrayBeyond(listing: seq<Entry>, disk: CheckpointProtocol.Folder) {
    forall e, s: nat | e in listing && ValidStep(e, s) && e.name != CheckpointId(s) ::
      s <= CheckpointProtocol.FindLoadStep(disk)
  }

  lemma ShownIsValid(e: Entry, disk: CheckpointProtocol.Folder, s: nat, t: nat)
    requires Shows(e, disk, s)
    ensures ValidStep(e, t) <==> t == s && disk[s].metadata
  {
    NameRoundTrip(s);
  }

  lemma FoundIsComplete(listing: seq<Entry>, disk: CheckpointProtocol.Folder, e: Entry, r: nat)
    requires Lists(listing, disk) && e in listing && ValidStep(e, r) && e.name == CheckpointId(r)
    ensures r <= CheckpointProtocol.FindLoadStep(disk)
  {
    ShownIsValid(e, disk, r, r);
  }

  lemma CompleteIsFound(listing: seq<Entry>, disk: CheckpointProtocol.Folder, l: nat)
    requires Lists(listing, disk) && l in disk && disk[l].metadata
    ensures exists e | e in listing :: ValidStep(e, l)
  {
    var e :| e in listing && Shows(e, disk, l);
    ShownIsValid(e, disk, l, l);
  }

  /** The name search never falls short of the newest complete step, and finds exactly it if
      and only if no stray name goes beyond. */
  method FindLoadStepOf(listing: seq<Entry>, ghost disk: CheckpointProtocol.Folder) returns (r: int)
    requires Lists(listing, disk)
    ensures r >= CheckpointProtocol.FindLoadStep(disk)
    ensures r == CheckpointProtocol.FindLoadStep(disk) <==> NoStrayBeyond(listing, disk)
    ensures r > CheckpointProtocol.FindLoadStep(disk) ==>
      exists e | e in listing :: ValidStep(e, r) && e.name != CheckpointId(r)
  {
    r := FindLoadStep(listing);
    ghost var l := CheckpointProtocol.FindLoadStep(disk);
    if l >= 0 {
      CompleteIsFound(listing, disk, l);
    }
    if r > l {
      ghost var e :| e in listing && ValidStep(e, r);
      if e.name == CheckpointId(r) {
        FoundIsComplete(listing, disk, e, r);
      }
    }
  }

  /** Whether the generated name of a step is in the listing. */
  method IsDir(listing: seq<Entry>, step: nat) returns (there: bool)
    ensures there <==> exists m | 0 <= m < |listing| :: listing[m].name == CheckpointId(step)
  {
    for i := 0 to |listing|
      invariant forall m | 0 <= m < i :: listing[m].name != CheckpointId(step)
    {
      if listing[i].name == CheckpointId(step) {
        return true;
      }
    }
    return false;
  }

  lemma NamedEntry(listing: seq<Entry>, disk: CheckpointProtocol.Folder, s: nat)
    requires Lists(listing, disk) && s in disk
    ensures exists m | 0 <= m < |listing| :: listing[m].name == CheckpointId(s)
  {
    var e: Entry :| e in listing && Shows(e, disk, s);
  }

  /** `--checkpoint.load_step=<step> not found`. */
  datatype LookupError = StepNotFound(step: nat)

  /** The lookup at the head of `load`: the step found, -1 for none, whose directory must then
      exist under its generated name. It opens the newest complete step, or finds that there is
      none, if and only if no stray name goes beyond; otherwise it raises, or opens a directory
      without metadata. */
  method Lookup(listing: seq<Entry>, ghost disk: CheckpointProtocol.Folder) returns (r: Result<int, LookupError>)
    requires Lists(listing, disk)
    ensures r == Ok(CheckpointProtocol.FindLoadStep(disk)) <==> NoStrayBeyond(listing, disk)
    ensures !NoStrayBeyond(listing, disk) ==>
      if r.Err? then r.error.step !in disk else r.value in disk && !disk[r.value].metadata
    ensures r.Err? ==> exists e | e in listing :: ValidStep(e, r.error.step) && e.name != CheckpointId(r.error.step)
  {
    var step := FindLoadStepOf(listing, disk);
    if step == -1 {
      return Ok(-1);
    }
    var there := IsDir(listing, step);
    if step in disk {
      NamedEntry(listing, disk, step);
    }
    r := if there then Ok(step) else Err(StepNotFound(step));
  }

  /** A copy under another name: the lookup goes past the complete step 90, for a directory
      that is not there. */
  lemma StrayExample(dir: CheckpointProtocol.Dir) returns (listing: seq<Entry>, disk: CheckpointProtocol.Folder)
    requires dir.metadata
    ensures listing == [Entry(CheckpointId(90), true, false), Entry("backup-" + CheckpointId(100), true, false)]
    ensures disk == map[90 := dir] && Lists(listing, disk) && !NoStrayBeyond(listing, disk)
  {
    listing := [Entry(CheckpointId(90), true, false), Entry("backup-" + CheckpointId(100), true, false)];
    disk := map[90 := dir];
    forall e, s: nat | e in listing && e.name == CheckpointId(s)
      ensures Shows(e, disk, s)
    {
      assert e.name[0] == 's';
      assert e == listing[0];
      NameRoundTrip(s);
      NameRoundTrip(90);
    }
    assert Shows(listing[0], disk, 90);
    PrefixedName("backup-", 100);
    assert ValidStep(listing[1], 100) && listing[1].name[0] != CheckpointId(100)[0];
  }
}
