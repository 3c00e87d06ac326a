/**
  Tracker lists: tier creation, which drops trackers that compare equal to an earlier one, and
  the text form that separates tiers by blank lines.
*/
module Trackers {
  import opened ByteStrings
  import opened Urls
  import opened Wrappers
  import Utf8

  const NEWLINE: Byte := 0x0A
  const MAXIMUM_IMPORT_BYTES := 1024 * 1024

  datatype TrackerUrl = TrackerUrl(value: Bytes, key: Bytes)

  type Tier = seq<TrackerUrl>

  function ParseTracker(value: Bytes): Option<TrackerUrl> {
    match ParseUrl(value, TRACKER_SCHEMES)
    case None => None
    case Some(key) => Some(TrackerUrl(value, key))
  }

  // ----- tiers --------------------------------------------------------------------------------

  function KeysOf(tier: Tier): set<Bytes> {
    set t | t in tier :: t.key
  }

  /** TrackerTier::create on a non-empty vector. */
  function Deduplicated(trackers: Tier): Tier {
    if trackers == [] then []
    else
      var front, last := Deduplicated(trackers[..|trackers| - 1]), trackers[|trackers| - 1];
      if last.key in KeysOf(front) then front else front + [last]
  }

  predicate DistinctTrackers(tier: Tier) {
    forall i, j :: 0 <= i < j < |tier| ==> tier[i].key != tier[j].key
  }

  /** The first tracker of `trackers` with the given key. */
  function FirstIndex(trackers: Tier, key: Bytes, from: nat := 0): (i: nat)
    requires from <= |trackers|
    ensures from <= i <= |trackers| && (i < |trackers| ==> trackers[i].key == key)
    ensures forall k :: from <= k < i ==> trackers[k].key != key
    decreases |trackers| - from
  {
    if from == |trackers| || trackers[from].key == key then from else FirstIndex(trackers, key, from + 1)
  }

  /** Every key survives once, as its first tracker, and the survivors keep their order. */
  lemma {:induction false} DeduplicatedKeepsFirsts(trackers: Tier)
    ensures var d := Deduplicated(trackers);
            && KeysOf(d) == KeysOf(trackers) && DistinctTrackers(d)
            && (forall i :: 0 <= i < |d| ==>
                  FirstIndex(trackers, d[i].key) < |trackers| && trackers[FirstIndex(trackers, d[i].key)] == d[i])
            && (forall i, j :: 0 <= i < j < |d| ==> FirstIndex(trackers, d[i].key) < FirstIndex(trackers, d[j].key))
  {
    hide FirstIndex, KeysOf;
    if trackers != [] {
      var n := |trackers| - 1;
      var front, last := trackers[..n], trackers[n];
      DeduplicatedKeepsFirsts(front);
      var d, df := Deduplicated(trackers), Deduplicated(front);
      KeysOfAppend(front, last);
      assert trackers == front + [last];
      forall i | 0 <= i < |df| ensures FirstIndex(trackers, df[i].key) == FirstIndex(front, df[i].key) {
        FirstIndexAppend(front, last, df[i].key);
      }
      if last.key !in KeysOf(df) {
        KeysOfAppend(df, last);
        FirstIndexAppend(front, last, last.key);
        forall i | 0 <= i < |df| ensures df[i].key in KeysOf(df) {
          MemberKey(df, i);
        }
      }
    }
  }

  lemma MemberKey(tier: Tier, i: nat)
    requires i < |tier|
    ensures tier[i].key in KeysOf(tier)
  {
    assert tier[i] in tier;
  }

  lemma KeysOfAppend(front: Tier, last: TrackerUrl)
    ensures KeysOf(front + [last]) == KeysOf(front) + {last.key}
  {
    assert last in front + [last];
    assert forall t :: t in front ==> t in front + [last];
  }

  lemma FirstIndexAppend(front: Tier, last: TrackerUrl, key: Bytes)
    ensures key in KeysOf(front) <==> FirstIndex(front, key) < |front|
    ensures key in KeysOf(front) ==> FirstIndex(front + [last], key) == FirstIndex(front, key)
    ensures key !in KeysOf(front) && key == last.key ==> FirstIndex(front + [last], key) == |front|
  {
    hide FirstIndex;
    var all := front + [last];
    var i, j := FirstIndex(front, key), FirstIndex(all, key);
    assert forall k :: 0 <= k < |front| ==> all[k] == front[k];
    if i < |front| {
      assert front[i] in front && all[i].key == key;
    }
    if j < |front| {
      assert front[j].key == key;
    }
    if key == last.key {
      assert all[|front|].key == key;
    }
  }

  lemma {:induction false} DistinctIsUnchanged(tier: Tier)
    requires DistinctTrackers(tier)
    ensures Deduplicated(tier) == tier
  {
    if tier != [] {
      var n := |tier| - 1;
      DistinctIsUnchanged(tier[..n]);
      assert tier == tier[..n] + [tier[n]];
    }
  }

  lemma DeduplicationIsIdempotent(trackers: Tier)
    ensures Deduplicated(Deduplicated(trackers)) == Deduplicated(trackers)
  {
    DeduplicatedKeepsFirsts(trackers);
    DistinctIsUnchanged(Deduplicated(trackers));
  }

  method CreateTier(trackers: Tier) returns (r: Option<Tier>)
    ensures r == if trackers == [] then None else Some(Deduplicated(trackers))
  {
    if trackers == [] { return None; }
    var seen: set<Bytes> := {};
    var unique: Tier := [];
    for i := 0 to |trackers|
      invariant unique == Deduplicated(trackers[..i]) && seen == KeysOf(unique)
    {
      assert trackers[..i + 1][..i] == trackers[..i];
      if trackers[i].key !in seen {
        seen := seen + {trackers[i].key};
        unique := unique + [trackers[i]];
      }
    }
    assert trackers[..|trackers|] == trackers;
    r := Some(unique);
  }

  /** make_list: empty tiers disappear. */
  function MadeList(tiers: seq<Tier>): seq<Tier> {
    if tiers == [] then []
    else
      var front, last := MadeList(tiers[..|tiers| - 1]), tiers[|tiers| - 1];
      if last == [] then front else front + [Deduplicated(last)]
  }

  method MakeList(tiers: seq<Tier>) returns (r: seq<Tier>)
    ensures r == MadeList(tiers)
  {
    r := [];
    for i := 0 to |tiers|
      invariant r == MadeList(tiers[..i])
    {
      assert tiers[..i + 1][..i] == tiers[..i];
      if tiers[i] != [] {
        var tier := CreateTier(tiers[i]);
        r := r + [tier.value];
      }
    }
    assert tiers[..|tiers|] == tiers;
  }

  /** What TrackerUrl::parse and TrackerTier::create make of every list in the program. */
  ghost predicate ValidTier(tier: Tier) {
    tier != [] && DistinctTrackers(tier) && forall t :: t in tier ==> ParseTracker(t.value) == Some(t)
  }

  ghost predicate ValidList(tiers: seq<Tier>) {
    forall tier :: tier in tiers ==> ValidTier(tier)
  }

  lemma {:induction false} ValidListIsMade(tiers: seq<Tier>)
    requires ValidList(tiers)
    ensures MadeList(tiers) == tiers
  {
    hide ParseTracker, Deduplicated, DistinctTrackers;
    if tiers != [] {
      var n := |tiers| - 1;
      assert tiers[n] in tiers && forall tier :: tier in tiers[..n] ==> tier in tiers;
      ValidListIsMade(tiers[..n]);
      DistinctIsUnchanged(tiers[n]);
      assert tiers == tiers[..n] + [tiers[n]];
    }
  }

  // ----- text ------------------------------------------------------------------------------------

  predicate IsWhitespace(b: Byte) {
    b == 0x20 || 0x09 <= b <= 0x0D
  }

  function Trimmed(s: Bytes): Bytes {
    if s == [] then []
    else if IsWhitespace(s[0]) then Trimmed(s[1..])
    else TrimmedBack(s)
  }

  function TrimmedBack(s: Bytes): Bytes {
    if s != [] && IsWhitespace(s[|s| - 1]) then TrimmedBack(s[..|s| - 1]) else s
  }

  method TrimAscii(value: Bytes) returns (r: Bytes)
    ensures r == Trimmed(value)
  {
    r := value;
    while r != [] && IsWhitespace(r[0])
      invariant Trimmed(r) == Trimmed(value)
    {
      r := r[1..];
    }
    while r != [] && IsWhitespace(r[|r| - 1])
      invariant TrimmedBack(r) == Trimmed(value)
    {
      r := r[..|r| - 1];
    }
  }

  datatype Import = Import(tiers: seq<Tier>, valid: bool)

  /** One trimmed line: blank opens a tier, '#' is a comment, anything else must be a tracker. */
  function WithLine(state: Import, line: Bytes): Import
    requires state.tiers != []
  {
    if line == [] then state.(tiers := state.tiers + [[]])
    else if line[0] == HASH then state
    else
      match ParseTracker(line)
      case None => state.(valid := false)
      case Some(t) =>
        var last := |state.tiers| - 1;
        state.(tiers := state.tiers[last := state.tiers[last] + [t]])
  }

  /** The remaining lines of the input. */
  function WithLines(state: Import, rest: Bytes): Import
    requires state.tiers != []
    decreases |rest|
  {
    var end := FindAny(rest, {NEWLINE});
    match end
    case None => WithLine(state, Trimmed(rest))
    case Some(n) => WithLines(WithLine(state, Trimmed(rest[..n])), rest[n + 1..])
  }

  function Imported(input: Bytes): Option<seq<Tier>> {
    if |input| > MAXIMUM_IMPORT_BYTES then None
    else
      var state := WithLines(Import([[]], true), input);
      if Utf8.WellFormed(input) && state.valid then Some(MadeList(state.tiers)) else None
  }

  method ImportText(input: Bytes) returns (r: Option<seq<Tier>>)
    ensures r == Imported(input)
  {
    hide WithLines, Trimmed, ParseTracker, Utf8.WellFormed, MadeList, FindAny;
    if |input| > MAXIMUM_IMPORT_BYTES { return None; }
    var valid := Utf8.TrackerIsValidUtf8(input);
    ghost var utf8 := valid;
    var tiers: seq<Tier> := [[]];
    var tierIndex, start := 0, 0;
    assert input[0..] == input;
    ghost var lines := true;
    while start <= |input|
      invariant start <= |input| && |tiers| == tierIndex + 1
      invariant valid == (utf8 && lines)
      invariant WithLines(Import(tiers, lines), input[start..]) == WithLines(Import([[]], true), input)
      decreases |input| - start
    {
      var end := FindAny(input, {NEWLINE}, start);
      NextLine(Import(tiers, lines), input, start);
      var stop := if end.Some? then end.value else |input|;
      var line := TrimAscii(input[start..stop]);
      if line == [] {
        tierIndex := tierIndex + 1;
        if tierIndex == |tiers| { tiers := tiers + [[]]; }
      } else if line[0] != HASH {
        var tracker := ParseTracker(line);
        if tracker == None {
          valid, lines := false, false;
        } else {
          tiers := tiers[tierIndex := tiers[tierIndex] + [tracker.value]];
        }
      }
      if end == None {
        assert input[start..stop] == input[start..];
        break;
      }
      start := end.value + 1;
    }
    if !valid { return None; }
    var list := MakeList(tiers);
    r := Some(list);
  }

  lemma UnfoldLines(state: Import, rest: Bytes)
    requires state.tiers != []
    ensures FindAny(rest, {NEWLINE}).None? ==> WithLines(state, rest) == WithLine(state, Trimmed(rest))
    ensures FindAny(rest, {NEWLINE}).Some? ==>
              var n := FindAny(rest, {NEWLINE}).value;
              WithLines(state, rest) == WithLines(WithLine(state, Trimmed(rest[..n])), rest[n + 1..])
  {
    hide WithLine, FindAny, Trimmed;
  }

  /** One round of the line loop, for the input from `start` on. */
  lemma NextLine(state: Import, input: Bytes, start: nat)
    requires state.tiers != [] && start <= |input|
    ensures FindAny(input, {NEWLINE}, start).None? ==>
              WithLines(state, input[start..]) == WithLine(state, Trimmed(input[start..]))
    ensures FindAny(input, {NEWLINE}, start).Some? ==>
              var n := FindAny(input, {NEWLINE}, start).value;
              WithLines(state, input[start..]) == WithLines(WithLine(state, Trimmed(input[start..n])), input[n + 1..])
  {
    hide *;
    var rest, end := input[start..], FindAny(input, {NEWLINE}, start);
    FindInSuffix(input, start);
    UnfoldLines(state, rest);
    if end.Some? {
      assert FindAny(rest, {NEWLINE}) == Some(end.value - start);
      SliceOfSuffix(input, start, end.value);
    }
  }

  lemma SliceOfSuffix(s: Bytes, start: nat, end: nat)
    requires start <= end < |s|
    ensures s[start..][..end - start] == s[start..end] && s[start..][end - start + 1..] == s[end + 1..]
  {
  }

  lemma {:induction false} FindInSuffix(s: Bytes, from: nat, k: nat := 0)
    requires from + k <= |s|
    ensures FindAny(s[from..], {NEWLINE}, k)
         == match FindAny(s, {NEWLINE}, from + k) { case None => None case Some(n) => Some(n - from) }
    decreases |s| - from - k
  {
    if from + k < |s| && s[from + k] != NEWLINE {
      FindInSuffix(s, from, k + 1);
    }
  }

  function TierText(tier: Tier): Bytes {
    if tier == [] then [] else TierText(tier[..|tier| - 1]) + tier[|tier| - 1].value + [NEWLINE]
  }

  function Exported(tiers: seq<Tier>): Bytes {
    if tiers == [] then []
    else
      var n := |tiers| - 1;
      Exported(tiers[..n]) + (if n == 0 then [] else [NEWLINE]) + TierText(tiers[n])
  }

  method ExportText(tiers: seq<Tier>) returns (output: Bytes)
    ensures output == Exported(tiers)
  {
    output := [];
    for i := 0 to |tiers|
      invariant output == Exported(tiers[..i])
    {
      if i != 0 { output := output + [NEWLINE]; }
      ghost var before := output;
      for k := 0 to |tiers[i]|
        invariant output == before + TierText(tiers[i][..k])
      {
        assert tiers[i][..k + 1][..k] == tiers[i][..k];
        output := output + tiers[i][k].value + [NEWLINE];
      }
      assert tiers[i][..|tiers[i]|] == tiers[i];
      assert tiers[..i + 1][..i] == tiers[..i];
    }
    assert tiers[..|tiers|] == tiers;
  }

  // ----- round trip ------------------------------------------------------------------------------

  lemma PrintableIsTrimmed(s: Bytes)
    requires Printable(s)
    ensures Trimmed(s) == s
  {
  }

  /** A tracker of a valid tier is one line of the text, read back as itself. */
  lemma TrackerLine(t: TrackerUrl)
    requires ParseTracker(t.value) == Some(t)
    ensures t.value != [] && t.value[0] != HASH && Utf8.WellFormed(t.value) && Trimmed(t.value) == t.value
    ensures forall k :: 0 <= k < |t.value| ==> t.value[k] != NEWLINE
  {
    AcceptedTrackerUrl(t.value);
    PrintableIsTrimmed(t.value);
  }

  /** A line of the text: what stands before the first newline. */
  lemma FirstLine(state: Import, line: Bytes, rest: Bytes)
    requires state.tiers != [] && forall k :: 0 <= k < |line| ==> line[k] != NEWLINE
    ensures WithLines(state, line + [NEWLINE] + rest) == WithLines(WithLine(state, Trimmed(line)), rest)
  {
    var text := line + [NEWLINE] + rest;
    var end := FindAny(text, {NEWLINE});
    assert text[|line|] == NEWLINE;
    assert end == Some(|line|);
    assert text[..|line|] == line && text[|line| + 1..] == rest;
  }

  lemma UnfoldTierText(tier: Tier)
    ensures TierText(tier)
         == if tier == [] then [] else TierText(tier[..|tier| - 1]) + tier[|tier| - 1].value + [NEWLINE]
  {
  }

  lemma ValidTierParses(tier: Tier)
    requires ValidTier(tier)
    ensures forall t :: t in tier ==> ParseTracker(t.value) == Some(t)
  {
  }

  lemma {:induction false} TierIsCollected(tiers: seq<Tier>, tier: Tier, rest: Bytes)
    requires forall t :: t in tier ==> ParseTracker(t.value) == Some(t)
    ensures WithLines(Import(tiers + [[]], true), TierText(tier) + rest)
         == WithLines(Import(tiers + [tier], true), rest)
    decreases |tier|
  {
    hide WithLines, ParseTracker, Trimmed, Utf8.WellFormed, TierText;
    UnfoldTierText(tier);
    if tier == [] {
      assert TierText(tier) + rest == rest;
    } else {
      var n := |tier| - 1;
      var front, last := tier[..n], tier[n];
      assert last in tier;
      TrackerLine(last);
      assert TierText(tier) + rest == TierText(front) + (last.value + [NEWLINE] + rest);
      TierIsCollected(tiers, front, last.value + [NEWLINE] + rest);
      var state := Import(tiers + [front], true);
      FirstLine(state, last.value, rest);
      assert tier == front + [last];
      assert (tiers + [front])[|tiers| := front + [last]] == tiers + [tier];
      assert WithLine(state, last.value) == Import(tiers + [tier], true);
    }
  }

  lemma {:induction false} TiersAreCollected(tiers: seq<Tier>, rest: Bytes)
    requires ValidList(tiers) && tiers != []
    ensures WithLines(Import([[]], true), Exported(tiers) + rest) == WithLines(Import(tiers, true), rest)
    decreases |tiers|
  {
    hide WithLines, ParseTracker, ValidTier, TierText;
    var n := |tiers| - 1;
    var front, last := tiers[..n], tiers[n];
    assert last in tiers && forall tier :: tier in front ==> tier in tiers;
    assert tiers == front + [last];
    ValidTierParses(last);
    if n == 0 {
      assert Exported(tiers) + rest == TierText(last) + rest;
      assert front + [[]] == [[]];
      TierIsCollected([], last, rest);
    } else {
      assert Exported(tiers) + rest == Exported(front) + ([NEWLINE] + (TierText(last) + rest));
      TiersAreCollected(front, [NEWLINE] + (TierText(last) + rest));
      assert [NEWLINE] + (TierText(last) + rest) == [] + [NEWLINE] + (TierText(last) + rest);
      FirstLine(Import(front, true), [], TierText(last) + rest);
      TierIsCollected(front, last, rest);
    }
  }

  lemma {:induction false} TierTextIsUtf8(tier: Tier)
    requires forall t :: t in tier ==> ParseTracker(t.value) == Some(t)
    ensures Utf8.WellFormed(TierText(tier))
  {
    hide ParseTracker, Utf8.WellFormed;
    Utf8.NewlineAndEmpty();
    if tier != [] {
      var n := |tier| - 1;
      assert tier[n] in tier;
      TrackerLine(tier[n]);
      TierTextIsUtf8(tier[..n]);
      Utf8.WellFormedConcat(TierText(tier[..n]), tier[n].value);
      Utf8.WellFormedConcat(TierText(tier[..n]) + tier[n].value, [NEWLINE]);
    }
  }

  lemma {:induction false} ExportedIsUtf8(tiers: seq<Tier>)
    requires ValidList(tiers)
    ensures Utf8.WellFormed(Exported(tiers))
  {
    hide Utf8.WellFormed, ParseTracker, TierText, ValidTier;
    Utf8.NewlineAndEmpty();
    if tiers != [] {
      var n := |tiers| - 1;
      assert tiers[n] in tiers;
      ValidTierParses(tiers[n]);
      ExportedIsUtf8(tiers[..n]);
      TierTextIsUtf8(tiers[n]);
      var front := Exported(tiers[..n]);
      var separator := if n == 0 then [] else [NEWLINE];
      Utf8.WellFormedConcat(front, separator);
      Utf8.WellFormedConcat(front + separator, TierText(tiers[n]));
    }
  }

  lemma {:induction false} MadeListDropsLastEmpty(tiers: seq<Tier>)
    ensures MadeList(tiers + [[]]) == MadeList(tiers)
  {
    assert (tiers + [[]])[..|tiers|] == tiers;
  }

  /** Importing an exported tracker list gives the list back. */
  lemma ExportThenImport(tiers: seq<Tier>)
    requires ValidList(tiers) && |Exported(tiers)| <= MAXIMUM_IMPORT_BYTES
    ensures Imported(Exported(tiers)) == Some(tiers)
  {
    var text := Exported(tiers);
    ExportedIsUtf8(tiers);
    ValidListIsMade(tiers);
    MadeListDropsLastEmpty(tiers);
    assert text + [] == text;
    if tiers == [] {
      var one: seq<Tier> := [[]];
      MadeListDropsLastEmpty(one);
      assert tiers + [[]] == one;
    } else {
      TiersAreCollected(tiers, []);
    }
  }
}
